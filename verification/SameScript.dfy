// What a whole run of the script leaves on the screen: every list of children
// in every file, read with the final catalogues of both languages
// (scripts/recombine-messages.ts, main over rewritesFor).
module SameScript {
  import opened Text
  import opened Messages
  import opened JsxTree
  import opened RunScanner
  import opened Runs
  import opened ChildLists
  import opened Sentences
  import opened Rendering
  import opened Layout
  import opened SameScreen
  import opened SameChildren
  import opened Splice
  import opened Rewrites
  import opened Recombiner
  import opened Script

  // ---- the runs the scan finds stand apart ----

  lemma {:induction false} LeftStartIs(parts: seq<Part>, from: nat, k: nat)
    requires from <= k <= |parts| && (forall i | from <= i < k :: parts[i].Literal?)
    requires from == 0 || !parts[from - 1].Literal?
    ensures LeftStart(parts, k) == from
  {
    if from < k {
      LeftStartIs(parts, from, k - 1);
    }
  }

  lemma {:induction false} RightEndIs(parts: seq<Part>, k: nat, to: nat)
    requires k <= to <= |parts| && (forall i | k <= i < to :: parts[i].Literal?)
    requires to == |parts| || !parts[to].Literal?
    ensures RightEnd(parts, k) == to
    decreases |parts| - k
  {
    if k < to {
      RightEndIs(parts, k + 1, to);
    }
  }

  lemma CandidateIsFramed(children: seq<Node>, r: Range)
    requires IsCandidate(Kinds(children), r) && Mixed(Kinds(children), r)
    ensures IsFramed(PartsOf(children), r)
  {
    var kinds, parts := Kinds(children), PartsOf(children);
    forall i | 0 <= i < |parts| ensures KindsMatch(kinds, parts, i) {
    }
    FitIsFramed(kinds, parts, r);
  }

  // What the scan sees of a child is what the child's part says.
  predicate KindsMatch(kinds: seq<Kind>, parts: seq<Part>, i: nat)
    requires i < |kinds| == |parts|
  {
    && (IsLiteral(kinds[i]) <==> parts[i].Literal?)
    && (kinds[i].BarrierKind? <==> parts[i].Barrier?)
    && (kinds[i].ValueKind? <==> parts[i].Value?)
  }

  lemma FitIsFramed(kinds: seq<Kind>, parts: seq<Part>, r: Range)
    requires |kinds| == |parts| && forall i: nat | i < |parts| :: KindsMatch(kinds, parts, i)
    requires IsCandidate(kinds, r) && Mixed(kinds, r)
    ensures IsFramed(parts, r)
  {
    var from: nat, to: nat :| IsSegment(kinds, from, to) && Fits(kinds, r, from, to);
    forall i: nat | i < |parts| ensures BarrierAt(kinds, i) == parts[i].Barrier? {
      assert KindsMatch(kinds, parts, i);
    }
    forall i: nat | i < |parts| ensures IsLiteral(kinds[i]) == parts[i].Literal? {
      assert KindsMatch(kinds, parts, i);
    }
    LeftStartIs(parts, from, r.lo);
    RightEndIs(parts, r.hi, to);
    var k :| 0 <= k < r.hi - r.lo && kinds[r.lo..r.hi][k] == ValueKind;
    assert KindsMatch(kinds, parts, r.lo + k);
  }

  // No literal lies between a barrier and two runs.
  lemma FramedApart(parts: seq<Part>, r: Range, next: Range)
    requires IsFramed(parts, r) && IsFramed(parts, next) && r.hi <= next.lo
    ensures r.hi <= LeftStart(parts, next.lo)
  {
  }

  lemma {:induction false} PlacedFrom(parts: seq<Part>, ranges: seq<Range>, lo: nat)
    requires InOrder(ranges) && (forall r | r in ranges :: IsFramed(parts, r))
    requires lo <= |parts| && (ranges != [] ==> IsFramed(parts, ranges[0]) && lo <= LeftStart(parts, ranges[0].lo))
    ensures Placed(parts, ranges, lo)
    decreases |ranges|
  {
    if ranges != [] {
      assert ranges[0] in ranges;
      if |ranges| > 1 {
        assert ranges[1] in ranges;
        FramedApart(parts, ranges[0], ranges[1]);
      }
      PlacedFrom(parts, ranges[1..], ranges[0].hi);
    }
  }

  lemma RunsArePlaced(children: seq<Node>)
    ensures Placed(PartsOf(children), Ranges(Kinds(children)), 0)
  {
    var kinds := Kinds(children);
    CandidatesInOrder(kinds, 0);
    OnlyMixedInOrder(kinds, CandidatesFrom(kinds, 0));
    forall r | r in Ranges(kinds) ensures IsFramed(PartsOf(children), r) {
      RangesAreExact(kinds, r);
      CandidateIsFramed(children, r);
    }
    PlacedFrom(PartsOf(children), Ranges(kinds), 0);
  }

  // ---- the catalogues ----

  // The second catalogue reads like the first wherever the first has an entry.
  ghost predicate Extends(catalogue: Catalogue, more: Catalogue) {
    forall key | key in catalogue :: key in more && more[key] == catalogue[key]
  }

  // What one file's rewrites add leaves the entries there were alone.
  lemma EnteringExtends(rs: seq<Rewrite>, en: Catalogue, ms: Catalogue)
    requires FreshKeys(rs, en.Keys)
    ensures Extends(en, EnterAll(en, rs, false))
    ensures SameBeside(en, ms, EnterAll(ms, rs, true))
  {
    TextsKeys(rs, false);
    TextsKeys(rs, true);
  }

  // Two catalogues of the other language hold the same for every key of this one.
  ghost predicate SameBeside(en: Catalogue, ms: Catalogue, more: Catalogue) {
    forall key | key in en :: (key in more <==> key in ms) && (key in ms ==> more[key] == ms[key])
  }

  lemma BothExtend(en: Catalogue, ms: Catalogue, moreEn: Catalogue, moreMs: Catalogue, key: string)
    requires Extends(en, moreEn) && SameBeside(en, ms, moreMs) && key in en
    ensures key in WithFallback(ms, en) && key in WithFallback(moreMs, moreEn)
    ensures WithFallback(moreMs, moreEn)[key] == WithFallback(ms, en)[key]
  {
  }

  // A file is read with catalogues in which the first entries still stand.
  lemma {:induction false} FileReads(files: seq<File>, en: Catalogue, ms: Catalogue, claimed: Catalogue, i: nat)
    returns (e: Catalogue, m: Catalogue, c: Catalogue)
    requires i < |files| && claimed.Keys <= en.Keys
    ensures Plan(files, en, ms, claimed)[i] == FileRewrites(files[i], e, m, c)
    ensures Extends(en, e) && SameBeside(en, ms, m)
    decreases files
  {
    if i == 0 {
      e, m, c := en, ms, claimed;
    } else {
      var e', m', c' := AfterFirst(files, en, ms, claimed);
      e, m, c := FileReads(files[1..], e', m', c', i - 1);
      ExtendsTwice(en, e', e, ms, m', m);
    }
  }

  lemma AfterFirst(files: seq<File>, en: Catalogue, ms: Catalogue, claimed: Catalogue)
    returns (e: Catalogue, m: Catalogue, c: Catalogue)
    requires files != [] && claimed.Keys <= en.Keys
    ensures Extends(en, e) && SameBeside(en, ms, m) && c.Keys <= e.Keys
    ensures Plan(files, en, ms, claimed)[1..] == Plan(files[1..], e, m, c)
  {
    var rs := FileRewrites(files[0], en, ms, claimed);
    e, m, c := EnterAll(en, rs, false), EnterAll(ms, rs, true), FileClaims(files[0], en, ms, claimed);
    RewriteAllFresh(RunsOf(files[0].tree), en, ms, claimed);
    ClaimedKeys(RunsOf(files[0].tree), en, ms, claimed);
    TextsKeys(rs, false);
    EnteringExtends(rs, en, ms);
  }

  lemma ExtendsTwice(en: Catalogue, more: Catalogue, most: Catalogue, ms: Catalogue, moreMs: Catalogue,
                     mostMs: Catalogue)
    requires Extends(en, more) && Extends(more, most)
    requires SameBeside(en, ms, moreMs) && SameBeside(more, moreMs, mostMs)
    ensures Extends(en, most) && SameBeside(en, ms, mostMs)
  {
  }

  // One of the rewrites found: it puts a call of `t` with the run's holes in
  // the place of the run's span, and enters the text its children make in
  // either language.
  ghost predicate IsRewriteOf(run: Run, r: Rewrite, found: seq<Rewrite>, en: Catalogue, ms: Catalogue) {
    && r in found && run != [] && r.lo == Start(run) && r.hi == End(run)
    && r.replacement == Replacement(r.newKey, Bindings(Expressions(PartsOf(run)), map[]))
    && r.retired == KeysOf(PartsOf(run))
    && Known(PartsOf(run), en) && r.english == Combined(PartsOf(run), en)
    && Known(PartsOf(run), WithFallback(ms, en)) && r.malay == Combined(PartsOf(run), WithFallback(ms, en))
  }

  // A run whose messages all have entries.
  ghost predicate CanCombine(run: Run, en: Catalogue) {
    run != [] && Known(PartsOf(run), en) && KeysOf(PartsOf(run)) != []
  }

  lemma {:induction false} RunIsRewritten(runs: seq<Run>, run: Run, en: Catalogue, ms: Catalogue, claimed: Catalogue)
    returns (r: Rewrite)
    requires run in runs && CanCombine(run, en)
    ensures IsRewriteOf(run, r, RewriteAll(runs, en, ms, claimed), en, ms)
  {
    var first := Combine(runs[0], en, ms, claimed);
    if run == runs[0] {
      r := first.value;
      assert r in Listed(first);
    } else {
      r := RunIsRewritten(runs[1..], run, en, ms, Claim(first, claimed));
    }
  }

  // ---- one list with its final entries ----

  // The entry a run's message is read with.
  ghost predicate RunEntered(parts: seq<Part>, r: Range, key: string, catalogue: Catalogue, final: Catalogue) {
    && IsFramed(parts, r) && Known(parts[r.lo..r.hi], catalogue)
    && key in final && final[key] == Combined(parts[r.lo..r.hi], catalogue)
  }

  ghost predicate RunsEntered(parts: seq<Part>, ranges: seq<Range>, keys: seq<string>, catalogue: Catalogue,
                              final: Catalogue) {
    |keys| == |ranges| && forall k | 0 <= k < |ranges| :: RunEntered(parts, ranges[k], keys[k], catalogue, final)
  }

  ghost predicate ChildKept(key: string, catalogue: Catalogue, final: Catalogue) {
    key in catalogue && key in final && final[key] == catalogue[key]
  }

  // The children from lo on that belong to no run keep their entries.
  ghost predicate OthersKept(parts: seq<Part>, ranges: seq<Range>, lo: nat, catalogue: Catalogue, final: Catalogue) {
    forall i | lo <= i < |parts| && parts[i].Message? && Outside(ranges, i) ::
      ChildKept(parts[i].key, catalogue, final)
  }

  lemma {:induction false} ListIsEntered(parts: seq<Part>, ranges: seq<Range>, keys: seq<string>, lo: nat,
                                         catalogue: Catalogue, final: Catalogue)
    requires Placed(parts, ranges, lo) && RunsEntered(parts, ranges, keys, catalogue, final)
    requires OthersKept(parts, ranges, lo, catalogue, final)
    ensures HoldsEntries(parts, ranges, keys, lo, catalogue, final)
    decreases |ranges|
  {
    if ranges != [] {
      assert RunEntered(parts, ranges[0], keys[0], catalogue, final);
      OthersKeptAround(parts, ranges, lo, catalogue, final);
      RunsEnteredAfter(parts, ranges, keys, catalogue, final);
      ListIsEntered(parts, ranges[1..], keys[1..], ranges[0].hi, catalogue, final);
    }
  }

  lemma RunsEnteredAfter(parts: seq<Part>, ranges: seq<Range>, keys: seq<string>, catalogue: Catalogue,
                         final: Catalogue)
    requires ranges != [] && RunsEntered(parts, ranges, keys, catalogue, final)
    ensures RunsEntered(parts, ranges[1..], keys[1..], catalogue, final)
  {
    forall k | 0 <= k < |ranges| - 1 ensures RunEntered(parts, ranges[1..][k], keys[1..][k], catalogue, final) {
      assert RunEntered(parts, ranges[k + 1], keys[k + 1], catalogue, final);
    }
  }

  lemma OthersKeptAround(parts: seq<Part>, ranges: seq<Range>, lo: nat, catalogue: Catalogue, final: Catalogue)
    requires ranges != [] && Placed(parts, ranges, lo) && OthersKept(parts, ranges, lo, catalogue, final)
    ensures lo <= ranges[0].lo && SameEntries(parts, lo, ranges[0].lo, catalogue, final)
    ensures OthersKept(parts, ranges[1..], ranges[0].hi, catalogue, final)
  {
    var r := ranges[0];
    assert ranges == [r] + ranges[1..];
    PlacedAfter(parts, ranges[1..], r.hi);
    forall i | lo <= i < r.lo ensures Outside(ranges, i) {
      assert forall x | x in ranges[1..] :: r.hi <= x.lo;
    }
    forall i | r.hi <= i < |parts| && Outside(ranges[1..], i) ensures Outside(ranges, i) {
    }
  }

  lemma {:induction false} PlacedAfter(parts: seq<Part>, ranges: seq<Range>, lo: nat)
    requires Placed(parts, ranges, lo)
    ensures lo <= |parts| && forall r | r in ranges :: lo <= r.lo && IsFramed(parts, r)
    decreases |ranges|
  {
    if ranges != [] {
      PlacedAfter(parts, ranges[1..], ranges[0].hi);
    }
  }

  // ---- every list of every file ----

  // The rewrites of a list's runs, one by one, among those of its file.
  lemma {:induction false} RewritesOfList(runs: seq<Run>, all: seq<Run>, en: Catalogue, ms: Catalogue,
                                          claimed: Catalogue)
    returns (rs: seq<Rewrite>)
    requires forall run | run in runs :: run in all && CanCombine(run, en)
    ensures |rs| == |runs|
    ensures forall k | 0 <= k < |runs| :: IsRewriteOf(runs[k], rs[k], RewriteAll(all, en, ms, claimed), en, ms)
  {
    if runs == [] {
      rs := [];
    } else {
      var rest := RewritesOfList(runs[1..], all, en, ms, claimed);
      var first := RunIsRewritten(all, runs[0], en, ms, claimed);
      rs := [first] + rest;
    }
  }

  // With more entries in the catalogue a run still combines to the same text.
  lemma SameCombined(parts: seq<Part>, catalogue: Catalogue, more: Catalogue)
    requires Known(parts, catalogue)
    requires forall key | key in catalogue && Message(key) in parts :: key in more && more[key] == catalogue[key]
    ensures Known(parts, more) && Combined(parts, more) == Combined(parts, catalogue)
  {
    SameText(parts, catalogue, more, RunNames(parts));
  }

  lemma {:induction false} SameText(parts: seq<Part>, catalogue: Catalogue, more: Catalogue, names: Names)
    requires Known(parts, catalogue)
    requires forall key | key in catalogue && Message(key) in parts :: key in more && more[key] == catalogue[key]
    ensures Known(parts, more) && Sentence(parts, more, names) == Sentence(parts, catalogue, names)
  {
    if parts != [] {
      assert parts == [parts[0]] + parts[1..];
      SameText(parts[1..], catalogue, more, names);
    }
  }

  // The parts of a list's runs are the slices of its parts.
  lemma RunOfRange(children: seq<Node>, k: nat)
    requires k < |Ranges(Kinds(children))|
    ensures
      var r := Ranges(Kinds(children))[k];
      && |OwnRuns(children)| == |Ranges(Kinds(children))|
      && r.lo < r.hi <= |children| && OwnRuns(children)[k] == children[r.lo..r.hi]
      && OwnRuns(children)[k] in OwnRuns(children)
      && PartsOf(OwnRuns(children)[k]) == PartsOf(children)[r.lo..r.hi]
  {
    var ranges := Ranges(Kinds(children));
    assert forall r | r in ranges :: r.lo < r.hi <= |children|;
    SliceParts(children, ranges, OwnRuns(children), k);
  }

  lemma SliceParts(children: seq<Node>, ranges: seq<Range>, runs: seq<Run>, k: nat)
    requires forall r | r in ranges :: r.lo < r.hi <= |children|
    requires runs == Slices(children, ranges) && k < |ranges|
    ensures |runs| == |ranges| && runs[k] in runs
    ensures ranges[k].lo < ranges[k].hi <= |children| && runs[k] == children[ranges[k].lo..ranges[k].hi]
    ensures PartsOf(runs[k]) == PartsOf(children)[ranges[k].lo..ranges[k].hi]
  {
    assert ranges[k] in ranges;
  }

  lemma MixedHasKey(children: seq<Node>, r: Range)
    requires Mixed(Kinds(children), r)
    ensures KeysOf(PartsOf(children[r.lo..r.hi])) != []
  {
    var kinds := Kinds(children);
    var i :| 0 <= i < r.hi - r.lo && kinds[r.lo..r.hi][i] == MessageKind;
    assert KindOf(children[r.lo + i]).MessageKind?;
    MessageHasKey(PartsOf(children[r.lo..r.hi]), i);
  }

  lemma {:induction false} MessageHasKey(parts: seq<Part>, i: nat)
    requires i < |parts| && parts[i].Message?
    ensures parts[i].key in KeysOf(parts)
  {
    if i > 0 {
      MessageHasKey(parts[1..], i - 1);
    }
  }

  lemma {:induction false} SliceIsKnown(parts: seq<Part>, lo: nat, hi: nat, en: Catalogue)
    requires lo <= hi <= |parts| && Known(parts, en)
    ensures Known(parts[lo..hi], en)
  {
    assert forall part | part in parts[lo..hi] :: part in parts;
  }

  lemma ListCanCombine(children: seq<Node>, en: Catalogue)
    requires Known(PartsOf(children), en)
    ensures forall run | run in OwnRuns(children) :: CanCombine(run, en)
  {
    forall run | run in OwnRuns(children) ensures CanCombine(run, en) {
      var r := OwnRange(children, run);
      MixedHasKey(children, r);
      RunCanCombine(children, run, r, en);
    }
  }

  lemma RunCanCombine(children: seq<Node>, run: Run, r: Range, en: Catalogue)
    requires r.lo < r.hi <= |children| && run == children[r.lo..r.hi]
    requires KeysOf(PartsOf(run)) != [] && Known(PartsOf(children), en)
    ensures CanCombine(run, en)
  {
    SliceIsKnown(PartsOf(children), r.lo, r.hi, en);
    assert PartsOf(run) == PartsOf(children)[r.lo..r.hi];
  }

  // The keys the calls spliced in for a list's runs carry.
  function NewKeysOf(rs: seq<Rewrite>): (r: seq<string>)
    ensures |r| == |rs| && forall k | 0 <= k < |rs| :: r[k] == rs[k].newKey
  {
    seq(|rs|, k requires 0 <= k < |rs| => rs[k].newKey)
  }

  // A child's own text holds the key of its message in double quotes, as the
  // script looks for it.
  ghost predicate QuotesKey(child: Node, source: string)
    requires PartOf(child).Message?
  {
    child.lo < child.hi <= |source| && Contains(source[child.lo..child.hi], QuotedKey(PartOf(child).key))
  }

  ghost predicate AllQuoted(children: seq<Node>, source: string) {
    forall n | n in children && PartOf(n).Message? :: QuotesKey(n, source)
  }

  // A key that the file still quotes, for each child outside every run that
  // renders a message.
  ghost predicate StillQuoted(children: seq<Node>, source: string) {
    forall k | 0 <= k < |children| && PartOf(children[k]).Message? && Outside(Ranges(Kinds(children)), k) ::
      Contains(source, QuotedKey(PartOf(children[k]).key))
  }

  lemma PlannedFrom(files: seq<File>, en: Catalogue, ms: Catalogue, i: nat, edit: Edit)
    requires i < |files| && Parsed(files[i]) && edit in EditsOf(Plan(files, en, ms, map[])[i])
    ensures exists run :: run in RunsOf(files[i].tree) && run != [] && edit.lo == Start(run) && edit.hi == End(run)
  {
    var e, m, c := FileReads(files, en, ms, map[], i);
    var rs := RewriteAll(RunsOf(files[i].tree), e, m, c);
    RunsApart(files[i].tree);
    RewritesComeFromRuns(RunsOf(files[i].tree), e, m, c);
    var k :| 0 <= k < |rs| && EditOf(rs[k]) == edit;
    assert rs[k] in rs && FromRun(rs[k], RunsOf(files[i].tree));
  }

  // What stands in no run is quoted still once the file is spliced.
  lemma QuotedIsQuotedStill(files: seq<File>, en: Catalogue, ms: Catalogue, after: seq<string>, i: nat,
                            children: seq<Node>)
    requires HasRun(files, en, ms, after) && i < |files| && HasList(files[i].tree, children)
    requires AllQuoted(children, files[i].source)
    ensures StillQuoted(children, after[i])
  {
    var source, edits := files[i].source, EditsOf(Plan(files, en, ms, map[])[i]);
    assert Parsed(files[i]);
    ListIsWellFormed(files[i].tree, children);
    forall k | 0 <= k < |children| && PartOf(children[k]).Message? && Outside(Ranges(Kinds(children)), k)
      ensures Contains(after[i], QuotedKey(PartOf(children[k]).key))
    {
      var child := children[k];
      assert child in children && QuotesKey(child, source);
      TakenHasNoMarkup(child);
      ChildIsSpared(files[i].tree, children, k);
      forall e | e in edits ensures e.hi <= child.lo || child.hi <= e.lo {
        PlannedFrom(files, en, ms, i, e);
        var run :| run in RunsOf(files[i].tree) && run != [] && e.lo == Start(run) && e.hi == End(run);
        assert Apart([child], run);
      }
      SparedSurvives(source, edits, 0, child.lo, child.hi, QuotedKey(PartOf(child).key));
    }
  }

  // Every run of the list has its rewrite in the plan for its file, with the
  // texts the first catalogues make of it.
  lemma PlannedRewrites(files: seq<File>, en: Catalogue, ms: Catalogue, i: nat, children: seq<Node>)
    returns (rs: seq<Rewrite>)
    requires i < |files| && HasList(files[i].tree, children) && Known(PartsOf(children), en)
    ensures |rs| == |OwnRuns(children)|
    ensures forall k | 0 <= k < |rs| :: IsRewriteOf(OwnRuns(children)[k], rs[k], Plan(files, en, ms, map[])[i], en, ms)
  {
    var e, m, c := FileReads(files, en, ms, map[], i);
    var runs := OwnRuns(children);
    ListRunsAreFound(files[i].tree, children);
    ListCanCombine(children, en);
    forall run | run in runs ensures CanCombine(run, e) {
    }
    rs := RewritesOfList(runs, RunsOf(files[i].tree), e, m, c);
    forall k | 0 <= k < |rs| ensures IsRewriteOf(runs[k], rs[k], Plan(files, en, ms, map[])[i], en, ms) {
      assert runs[k] in runs;
      SameRewrite(runs[k], rs[k], Plan(files, en, ms, map[])[i], en, ms, e, m);
    }
  }

  lemma SameRewrite(run: Run, r: Rewrite, found: seq<Rewrite>, en: Catalogue, ms: Catalogue, e: Catalogue, m: Catalogue)
    requires IsRewriteOf(run, r, found, e, m) && Known(PartsOf(run), en)
    requires Extends(en, e) && SameBeside(en, ms, m)
    ensures IsRewriteOf(run, r, found, en, ms)
  {
    var parts := PartsOf(run);
    SameCombined(parts, en, e);
    forall key | key in WithFallback(ms, en) && Message(key) in parts
      ensures key in WithFallback(m, e) && WithFallback(m, e)[key] == WithFallback(ms, en)[key]
    {
      BothExtend(en, ms, e, m, key);
    }
    SameCombined(parts, WithFallback(ms, en), WithFallback(m, e));
  }

  // The catalogues at the end of the run, in either language, and the keys it
  // took out of them.
  function FinalEnglish(files: seq<File>, en: Catalogue, ms: Catalogue, after: seq<string>): Catalogue {
    Kept(en, Flat(Plan(files, en, ms, map[])), false, after)
  }

  function FinalMalay(files: seq<File>, en: Catalogue, ms: Catalogue, after: seq<string>): Catalogue {
    Kept(ms, Flat(Plan(files, en, ms, map[])), true, after)
  }

  function TakenOut(files: seq<File>, en: Catalogue, ms: Catalogue, after: seq<string>): set<string> {
    Gone(RetiredBy(Flat(Plan(files, en, ms, map[]))), after)
  }

  // With equal key sets the other language never falls back.
  lemma NeverFallsBack(en: Catalogue, ms: Catalogue)
    requires en.Keys == ms.Keys
    ensures WithFallback(ms, en) == ms
  {
  }

  // A run of the script with --write over parsed files.
  ghost predicate HasRun(files: seq<File>, en: Catalogue, ms: Catalogue, after: seq<string>) {
    (forall file | file in files :: Parsed(file)) && PlanDone(files, Plan(files, en, ms, map[]), true, after)
  }

  // The entry a rewrite made is there at the end.
  lemma RunEntry(files: seq<File>, en: Catalogue, ms: Catalogue, after: seq<string>, i: nat, run: Run, r: Rewrite)
    requires HasRun(files, en, ms, after) && i < |files|
    requires IsRewriteOf(run, r, Plan(files, en, ms, map[])[i], en, ms)
    ensures r.newKey in FinalEnglish(files, en, ms, after) && r.newKey in FinalMalay(files, en, ms, after)
    ensures FinalEnglish(files, en, ms, after)[r.newKey] == Combined(PartsOf(run), en)
    ensures FinalMalay(files, en, ms, after)[r.newKey] == Combined(PartsOf(run), WithFallback(ms, en))
  {
    EveryRewriteSurvives(files, en, ms, after, i, r);
  }

  // An entry some file still quotes reads as it did.
  lemma ChildEntry(files: seq<File>, en: Catalogue, ms: Catalogue, after: seq<string>, i: nat, key: string)
    requires HasRun(files, en, ms, after) && en.Keys == ms.Keys
    requires i < |after| && key in en && Contains(after[i], QuotedKey(key))
    ensures key in FinalEnglish(files, en, ms, after) && key in FinalMalay(files, en, ms, after)
    ensures FinalEnglish(files, en, ms, after)[key] == en[key]
    ensures FinalMalay(files, en, ms, after)[key] == ms[key]
  {
    var all := Flat(Plan(files, en, ms, map[]));
    PlanIsFresh(files, en, ms, map[]);
    EnteringExtends(all, en, ms);
    QuotedKeysStay(en, all, false, after, i, key);
    QuotedKeysStay(ms, all, true, after, i, key);
  }

  // An old entry is there at the end, as it was, unless it was taken out.
  lemma EntryStands(catalogue: Catalogue, all: seq<Rewrite>, malay: bool, after: seq<string>, key: string)
    requires FreshKeys(all, catalogue.Keys) && key in catalogue
    ensures key in Kept(catalogue, all, malay, after) <==> key !in Gone(RetiredBy(all), after)
    ensures key in Kept(catalogue, all, malay, after) ==> Kept(catalogue, all, malay, after)[key] == catalogue[key]
  {
    OldEntriesKept(catalogue, all, malay, after, key);
    IncludesIsContains(Join(after, "\n"), QuotedKey(key));
  }

  // No term the list names has had its entry taken out.
  ghost predicate NoTermTaken(parts: seq<Part>, catalogue: Catalogue, taken: set<string>)
    requires Known(parts, catalogue)
  {
    forall name | NamesTerm(parts, catalogue, name) :: TermKey(TermHoleOf(name).value) !in taken
  }

  lemma TermsTaken(parts: seq<Part>, catalogue: Catalogue, all: seq<Rewrite>, malay: bool, after: seq<string>)
    requires Known(parts, catalogue) && TermsKnown(parts, catalogue, catalogue) && FreshKeys(all, catalogue.Keys)
    ensures TermsStand(catalogue, Kept(catalogue, all, malay, after))
    ensures TermsKnown(parts, catalogue, Kept(catalogue, all, malay, after)) <==>
            NoTermTaken(parts, catalogue, Gone(RetiredBy(all), after))
  {
    forall key | key in catalogue
      ensures key in Kept(catalogue, all, malay, after) <==> key !in Gone(RetiredBy(all), after)
      ensures key in Kept(catalogue, all, malay, after) ==> Kept(catalogue, all, malay, after)[key] == catalogue[key]
    {
      EntryStands(catalogue, all, malay, after, key);
    }
  }

  // What a list of children asks of a catalogue to render from it: its
  // messages, no holes in them but terms, and the terms' own words.
  ghost predicate RendersFrom(children: seq<Node>, catalogue: Catalogue) {
    var parts := PartsOf(children);
    Known(parts, catalogue) && CleanParts(parts, catalogue) && TermsKnown(parts, catalogue, catalogue)
  }

  // Every list of children, of every element of every file, once the script
  // has run over catalogues with the same keys: with the calls it spliced in
  // and the catalogues it left, the list reads in both languages as it did
  // before, for all values, renamed terms and other children, if and only if
  // its runs are safe to combine, no whitespace at their ends shows, and no term
  // it names has had its entry taken out.
  lemma ScriptKeepsTheScreen(files: seq<File>, en: Catalogue, ms: Catalogue, after: seq<string>, i: nat,
                             children: seq<Node>)
    returns (rs: seq<Rewrite>)
    requires HasRun(files, en, ms, after) && en.Keys == ms.Keys
    requires i < |files| && HasList(files[i].tree, children)
    requires RendersFrom(children, en) && RendersFrom(children, ms) && AllQuoted(children, files[i].source)
    ensures |rs| == |OwnRuns(children)| == |Ranges(Kinds(children))|
    ensures forall k | 0 <= k < |rs| :: IsRewriteOf(OwnRuns(children)[k], rs[k], Plan(files, en, ms, map[])[i], en, ms)
    ensures Placed(PartsOf(children), Ranges(Kinds(children)), 0)
    ensures
      var parts, ranges := PartsOf(children), Ranges(Kinds(children));
      && AllSafe(parts, ranges, en) && AllHidden(parts, ranges, en)
      && NoTermTaken(parts, en, TakenOut(files, en, ms, after))
      <==> AlwaysAlike(parts, ranges, NewKeysOf(rs), en, FinalEnglish(files, en, ms, after))
    ensures
      var parts, ranges := PartsOf(children), Ranges(Kinds(children));
      && AllSafe(parts, ranges, ms) && AllHidden(parts, ranges, ms)
      && NoTermTaken(parts, ms, TakenOut(files, en, ms, after))
      <==> AlwaysAlike(parts, ranges, NewKeysOf(rs), ms, FinalMalay(files, en, ms, after))
  {
    NeverFallsBack(en, ms);
    rs := PlannedRewrites(files, en, ms, i, children);
    ListRanges(children);
    RunsArePlaced(children);
    assert Parsed(files[i]);
    QuotedIsQuotedStill(files, en, ms, after, i, children);
    FinalEntries(files, en, ms, after, i, children, rs);
    PlanIsFresh(files, en, ms, map[]);
    ListLaw(files[i], children, NewKeysOf(rs), en, Flat(Plan(files, en, ms, map[])), false, after);
    ListLaw(files[i], children, NewKeysOf(rs), ms, Flat(Plan(files, en, ms, map[])), true, after);
  }

  // The law in one language.
  lemma ListLaw(file: File, children: seq<Node>, keys: seq<string>, catalogue: Catalogue, all: seq<Rewrite>,
                malay: bool, after: seq<string>)
    requires Parsed(file) && HasList(file.tree, children) && RendersFrom(children, catalogue)
    requires FreshKeys(all, catalogue.Keys) && |keys| == |Ranges(Kinds(children))|
    requires Placed(PartsOf(children), Ranges(Kinds(children)), 0)
    requires HoldsEntries(PartsOf(children), Ranges(Kinds(children)), keys, 0, catalogue,
                          Kept(catalogue, all, malay, after))
    ensures
      var parts, ranges := PartsOf(children), Ranges(Kinds(children));
      && AllSafe(parts, ranges, catalogue) && AllHidden(parts, ranges, catalogue)
      && NoTermTaken(parts, catalogue, Gone(RetiredBy(all), after))
      <==> AlwaysAlike(parts, ranges, keys, catalogue, Kept(catalogue, all, malay, after))
  {
    var parts, ranges := PartsOf(children), Ranges(Kinds(children));
    ListIsSound(file, children, catalogue);
    TermsTaken(parts, catalogue, all, malay, after);
    SameListExactly(parts, ranges, keys, catalogue, Kept(catalogue, all, malay, after));
  }

  lemma ListIsSound(file: File, children: seq<Node>, catalogue: Catalogue)
    requires Parsed(file) && HasList(file.tree, children)
    requires Known(PartsOf(children), catalogue) && CleanParts(PartsOf(children), catalogue)
    ensures Sound(PartsOf(children), catalogue)
  {
    ListIsWellFormed(file.tree, children);
    PartsAreSound(children, catalogue);
  }

  lemma ListRanges(children: seq<Node>)
    ensures |OwnRuns(children)| == |Ranges(Kinds(children))|
  {
    assert forall r | r in Ranges(Kinds(children)) :: r.lo < r.hi <= |children|;
  }

  lemma FinalEntries(files: seq<File>, en: Catalogue, ms: Catalogue, after: seq<string>, i: nat, children: seq<Node>,
                     rs: seq<Rewrite>)
    requires HasRun(files, en, ms, after) && en.Keys == ms.Keys && i < |files| && HasList(files[i].tree, children)
    requires Known(PartsOf(children), en) && StillQuoted(children, after[i])
    requires Placed(PartsOf(children), Ranges(Kinds(children)), 0)
    requires |rs| == |OwnRuns(children)| == |Ranges(Kinds(children))|
    requires forall k | 0 <= k < |rs| :: IsRewriteOf(OwnRuns(children)[k], rs[k], Plan(files, en, ms, map[])[i], en, ms)
    ensures
      var parts, ranges := PartsOf(children), Ranges(Kinds(children));
      && HoldsEntries(parts, ranges, NewKeysOf(rs), 0, en, FinalEnglish(files, en, ms, after))
      && HoldsEntries(parts, ranges, NewKeysOf(rs), 0, ms, FinalMalay(files, en, ms, after))
  {
    var parts, ranges, keys := PartsOf(children), Ranges(Kinds(children)), NewKeysOf(rs);
    var english, malay := FinalEnglish(files, en, ms, after), FinalMalay(files, en, ms, after);
    PlacedAfter(parts, ranges, 0);
    forall k | 0 <= k < |ranges|
      ensures RunEntered(parts, ranges[k], keys[k], en, english)
      ensures RunEntered(parts, ranges[k], keys[k], ms, malay)
    {
      OneRunEntered(files, en, ms, after, i, children, k, rs[k]);
    }
    OthersAreKept(files, en, ms, after, i, children, ranges);
    ListIsEntered(parts, ranges, keys, 0, en, english);
    ListIsEntered(parts, ranges, keys, 0, ms, malay);
  }

  lemma OneRunEntered(files: seq<File>, en: Catalogue, ms: Catalogue, after: seq<string>, i: nat, children: seq<Node>,
                      k: nat, rewrite: Rewrite)
    requires HasRun(files, en, ms, after) && en.Keys == ms.Keys && i < |files|
    requires k < |Ranges(Kinds(children))| == |OwnRuns(children)|
    requires IsFramed(PartsOf(children), Ranges(Kinds(children))[k])
    requires IsRewriteOf(OwnRuns(children)[k], rewrite, Plan(files, en, ms, map[])[i], en, ms)
    ensures
      var r := Ranges(Kinds(children))[k];
      && RunEntered(PartsOf(children), r, rewrite.newKey, en, FinalEnglish(files, en, ms, after))
      && RunEntered(PartsOf(children), r, rewrite.newKey, ms, FinalMalay(files, en, ms, after))
  {
    NeverFallsBack(en, ms);
    RunOfRange(children, k);
    RunEntry(files, en, ms, after, i, OwnRuns(children)[k], rewrite);
  }

  lemma OthersAreKept(files: seq<File>, en: Catalogue, ms: Catalogue, after: seq<string>, i: nat, children: seq<Node>,
                      ranges: seq<Range>)
    requires HasRun(files, en, ms, after) && en.Keys == ms.Keys && i < |files| && ranges == Ranges(Kinds(children))
    requires Known(PartsOf(children), en) && StillQuoted(children, after[i])
    ensures OthersKept(PartsOf(children), ranges, 0, en, FinalEnglish(files, en, ms, after))
    ensures OthersKept(PartsOf(children), ranges, 0, ms, FinalMalay(files, en, ms, after))
  {
    var parts := PartsOf(children);
    forall k | 0 <= k < |parts| && parts[k].Message? && Outside(ranges, k)
      ensures ChildKept(parts[k].key, en, FinalEnglish(files, en, ms, after))
      ensures ChildKept(parts[k].key, ms, FinalMalay(files, en, ms, after))
    {
      assert parts[k] in parts;
      ChildEntry(files, en, ms, after, i, parts[k].key);
    }
  }
}
