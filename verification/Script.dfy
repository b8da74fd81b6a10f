// The script as it runs: the walk that fills one list of rewrites, and the
// catalogues it changes in place (scripts/recombine-messages.ts, visit and main).
module Script {
  import opened Text
  import opened Messages
  import opened JsxTree
  import opened RunScanner
  import opened Runs
  import opened Rewrites
  import opened Splice
  import opened Recombiner

  function RetiredBy(rewrites: seq<Rewrite>): (r: set<string>)
    ensures forall key :: key in r <==> exists x :: x in rewrites && key in x.retired
  {
    if rewrites == [] then {}
    else (set key | key in rewrites[0].retired) + RetiredBy(rewrites[1..])
  }

  lemma RetiredOneMore(rewrites: seq<Rewrite>, r: Rewrite)
    ensures RetiredBy(rewrites + [r]) == RetiredBy(rewrites) + set key | key in r.retired
  {
    assert (rewrites + [r])[|rewrites|] == r;
  }

  // The retired keys that no file still quotes.
  function Gone(retired: set<string>, after: seq<string>): set<string> {
    set key | key in retired && !Includes(Join(after, "\n"), QuotedKey(key))
  }

  lemma {:induction false} PlanFits(files: seq<File>, en: Catalogue, ms: Catalogue, claimed: Catalogue)
    requires forall file | file in files :: Parsed(file)
    ensures forall i | 0 <= i < |files| ::
      Fitting(EditsOf(Plan(files, en, ms, claimed)[i]), |files[i].source|)
          && AllClear(EditsOf(Plan(files, en, ms, claimed)[i]))
  {
    if files != [] {
      var rs := FileRewrites(files[0], en, ms, claimed);
      FileIsSpliceable(files[0], en, ms, claimed);
      var rest := files[1..];
      var en', ms', claimed' := EnterAll(en, rs, false), EnterAll(ms, rs, true), FileClaims(files[0], en, ms, claimed);
      PlanFits(rest, en', ms', claimed');
      assert Plan(files, en, ms, claimed) == [rs] + Plan(rest, en', ms', claimed');
      assert forall i | 0 < i < |files| ::
          && files[i] == rest[i - 1]
          && Plan(files, en, ms, claimed)[i] == Plan(rest, en', ms', claimed')[i - 1];
    }
  }

  class Recombination {
    var en: Catalogue
    var ms: Catalogue
    var claimed: Catalogue
    var rewrites: seq<Rewrite>
    var retired: set<string>

    constructor (english: Catalogue, malay: Catalogue)
      ensures en == english && ms == malay && claimed == map[] && rewrites == [] && retired == {}
    {
      en, ms, claimed, rewrites, retired := english, malay, map[], [], {};
    }

    // ---- one file ----

    // The runs of one element's own children, each rewritten as it is found.
    method RewriteChildren(children: seq<Node>)
      modifies this`claimed, this`rewrites
      ensures rewrites == old(rewrites) + RewriteAll(OwnRuns(children), en, ms, old(claimed))
      ensures claimed == ClaimedAfter(OwnRuns(children), en, ms, old(claimed))
    {
      var ranges, skipped := Scan(Kinds(children));
      var runs := Slices(children, ranges);
      RewriteRuns(runs);
    }

    method RewriteRun(runs: seq<Run>, i: nat, ghost all: seq<Rewrite>, ghost last: Catalogue)
      requires i < |runs| && Remaining(runs[i..], en, ms, claimed, rewrites, all, last)
      modifies this`claimed, this`rewrites
      ensures Remaining(runs[i + 1..], en, ms, claimed, rewrites, all, last)
    {
      assert runs[i..] == [runs[i]] + runs[i + 1..];
      NextRun(runs[i], runs[i + 1..], en, ms, claimed, rewrites, all, last);
      var r := CombineRun(runs[i], en, ms, claimed);
      claimed := Claim(r, claimed);
      rewrites := rewrites + Listed(r);
    }

    method RewriteRuns(runs: seq<Run>)
      modifies this`claimed, this`rewrites
      ensures rewrites == old(rewrites) + RewriteAll(runs, en, ms, old(claimed))
      ensures claimed == ClaimedAfter(runs, en, ms, old(claimed))
    {
      ghost var all := rewrites + RewriteAll(runs, en, ms, claimed);
      ghost var last := ClaimedAfter(runs, en, ms, claimed);
      var i := 0;
      AllRemain(runs, en, ms, claimed, rewrites);
      while i < |runs|
        invariant 0 <= i <= |runs|
        invariant Remaining(runs[i..], en, ms, claimed, rewrites, all, last)
      {
        RewriteRun(runs, i, all, last);
        i := i + 1;
      }
      NoneRemain(runs[i..], en, ms, claimed, rewrites, all, last);
    }

    // The walk over the tree.
    method Visit(node: Node)
      modifies this`claimed, this`rewrites
      ensures rewrites == old(rewrites) + RewriteAll(RunsOf(node), en, ms, old(claimed))
      ensures claimed == ClaimedAfter(RunsOf(node), en, ms, old(claimed))
      decreases node
    {
      match node
      case JsxText(_, _, _, _) =>
      case Braces(_, _, inner, _, _) => VisitAll(inner);
      case Other(_, inner, _, _) => VisitAll(inner);
      case Element(attributes, children, _, _) =>
        ghost var before, had := claimed, rewrites;
        RewriteChildren(children);
        VisitAll(attributes);
        VisitAll(children);
        VisitedInTurn(had, OwnRuns(children), RunsIn(attributes), RunsIn(children), en, ms, before);
    }

    method VisitAll(nodes: seq<Node>)
      modifies this`claimed, this`rewrites
      ensures rewrites == old(rewrites) + RewriteAll(RunsIn(nodes), en, ms, old(claimed))
      ensures claimed == ClaimedAfter(RunsIn(nodes), en, ms, old(claimed))
      decreases nodes
    {
      if nodes != [] {
        ghost var before, had := claimed, rewrites;
        Visit(nodes[0]);
        VisitAll(nodes[1..]);
        RewriteAllConcat(RunsOf(nodes[0]), RunsIn(nodes[1..]), en, ms, before);
        Regroup(had, RewriteAll(RunsOf(nodes[0]), en, ms, before),
                RewriteAll(RunsIn(nodes[1..]), en, ms, ClaimedAfter(RunsOf(nodes[0]), en, ms, before)));
      }
    }

    // One file's rewrites entered in both catalogues, and their keys retired.
    method Enter(rs: seq<Rewrite>)
      requires DistinctKeys(rs)
      modifies this`en, this`ms, this`retired
      ensures en == EnterAll(old(en), rs, false)
      ensures ms == EnterAll(old(ms), rs, true)
      ensures retired == old(retired) + RetiredBy(rs)
    {
      ghost var en0, ms0, retired0 := en, ms, retired;
      var i := 0;
      while i < |rs|
        invariant 0 <= i <= |rs|
        invariant EnteredTo(rs, i, en0, ms0, retired0, en, ms, retired)
      {
        EnteredOneMore(rs, i, en0, ms0, retired0, en, ms, retired);
        en := en[rs[i].newKey := rs[i].english];
        ms := ms[rs[i].newKey := rs[i].malay];
        retired := retired + set key | key in rs[i].retired;
        i := i + 1;
      }
      assert rs[..i] == rs;
    }

    // The rewrites of one file.
    method RewritesFor(file: File) returns (rs: seq<Rewrite>)
      modifies this`claimed, this`rewrites
      ensures rs == FileRewrites(file, en, ms, old(claimed))
      ensures claimed == FileClaims(file, en, ms, old(claimed))
    {
      rewrites := [];
      Visit(file.tree);
      rs := rewrites;
      assert rs == [] + rs;
    }

    // One file read, spliced and entered. Without `write` its text stays.
    method RewriteFile(file: File, write: bool) returns (next: string)
      requires Parsed(file)
      modifies this
      ensures Fitting(EditsOf(FileRewrites(file, old(en), old(ms), old(claimed))), |file.source|)
      ensures next == TextAfter(file, FileRewrites(file, old(en), old(ms), old(claimed)), write)
      ensures en == EnterAll(old(en), FileRewrites(file, old(en), old(ms), old(claimed)), false)
      ensures ms == EnterAll(old(ms), FileRewrites(file, old(en), old(ms), old(claimed)), true)
      ensures retired == old(retired) + RetiredBy(FileRewrites(file, old(en), old(ms), old(claimed)))
      ensures claimed == FileClaims(file, old(en), old(ms), old(claimed))
    {
      FileIsSpliceable(file, en, ms, claimed);
      RewriteAllFresh(RunsOf(file.tree), en, ms, claimed);
      var rs := RewritesFor(file);
      next := file.source;
      if write {
        next := SpliceFromRight(file.source, EditsOf(rs));
      }
      Enter(rs);
    }

    // ---- every file ----

    // The files rewritten one after another.
    method RewriteFiles(files: seq<File>, write: bool) returns (after: seq<string>)
      requires claimed.Keys <= en.Keys
      requires forall file | file in files :: Parsed(file)
      modifies this
      ensures PlanDone(files, Plan(files, old(en), old(ms), old(claimed)), write, after)
      ensures en == EnterAll(old(en), Flat(Plan(files, old(en), old(ms), old(claimed))), false)
      ensures ms == EnterAll(old(ms), Flat(Plan(files, old(en), old(ms), old(claimed))), true)
      ensures retired == old(retired) + RetiredBy(Flat(Plan(files, old(en), old(ms), old(claimed))))
    {
      ghost var plan := Plan(files, en, ms, claimed);
      PlanIsFresh(files, en, ms, claimed);
      PlanFits(files, en, ms, claimed);
      after := [];
      var i := 0;
      assert plan[0..] == plan && files[0..] == files;
      while i < |files|
        invariant 0 <= i <= |files| && Done(files, plan, i, write, after)
        invariant plan[i..] == Plan(files[i..], en, ms, claimed)
        invariant Entered(old(en), plan, i, false, en) && Entered(old(ms), plan, i, true, ms)
        invariant retired + RetiredBy(Flat(plan[i..])) == old(retired) + RetiredBy(Flat(plan))
      {
        PlanNext(files, plan, i, en, ms, claimed);
        EnteredNext(old(en), plan, i, false, en);
        EnteredNext(old(ms), plan, i, true, ms);
        var next := RewriteFile(files[i], write);
        DoneNext(files, plan, i, write, after, next);
        after := after + [next];
        i := i + 1;
      }
      AllEntered(files, plan, write, after);
    }

    // The whole run. A retired key that some file still quotes keeps its entry.
    method Run(files: seq<File>, write: bool) returns (after: seq<string>)
      requires claimed == map[] && retired == {}
      requires forall file | file in files :: Parsed(file)
      modifies this
      ensures PlanDone(files, Plan(files, old(en), old(ms), map[]), write, after)
      ensures
        var all := Flat(Plan(files, old(en), old(ms), map[]));
        && en == EnterAll(old(en), all, false) - Gone(RetiredBy(all), after)
        && ms == EnterAll(old(ms), all, true) - Gone(RetiredBy(all), after)
    {
      ghost var all := Flat(Plan(files, en, ms, claimed));
      after := RewriteFiles(files, write);
      assert retired == RetiredBy(all);
      Retire(after);
    }

    // Every retired key looked up in what the files now say.
    method Retire(after: seq<string>)
      modifies this`en, this`ms
      ensures en == old(en) - Gone(retired, after)
      ensures ms == old(ms) - Gone(retired, after)
    {
      var allSource := Join(after, "\n");
      var todo := retired;
      ghost var gone := {};
      while todo != {}
        invariant todo <= retired
        invariant gone == set key | key in retired - todo && !Includes(allSource, QuotedKey(key))
        invariant en == old(en) - gone && ms == old(ms) - gone
        decreases todo
      {
        var key :| key in todo;
        if !Includes(allSource, QuotedKey(key)) {
          en := en - {key};
          ms := ms - {key};
          gone := gone + {key};
        }
        todo := todo - {key};
      }
      assert gone == Gone(retired, after);
    }
  }

  // The first i rewrites are entered, and their keys retired.
  ghost predicate EnteredTo(rs: seq<Rewrite>, i: nat, en0: Catalogue, ms0: Catalogue, retired0: set<string>,
                            en: Catalogue, ms: Catalogue, retired: set<string>) {
    && i <= |rs|
    && en == EnterAll(en0, rs[..i], false) && ms == EnterAll(ms0, rs[..i], true)
    && retired == retired0 + RetiredBy(rs[..i])
  }

  lemma EnteredOneMore(rs: seq<Rewrite>, i: nat, en0: Catalogue, ms0: Catalogue, retired0: set<string>,
                       en: Catalogue, ms: Catalogue, retired: set<string>)
    requires DistinctKeys(rs) && i < |rs| && EnteredTo(rs, i, en0, ms0, retired0, en, ms, retired)
    ensures EnteredTo(rs, i + 1, en0, ms0, retired0, en[rs[i].newKey := rs[i].english],
                      ms[rs[i].newKey := rs[i].malay], retired + set key | key in rs[i].retired)
  {
    var front := rs[..i];
    assert rs[..i + 1] == front + [rs[i]];
    EnterOne(front, rs[i], en0, false);
    EnterOne(front, rs[i], ms0, true);
    RetiredOneMore(front, rs[i]);
  }

  function TextAfter(file: File, rs: seq<Rewrite>, write: bool): string
    requires Fitting(EditsOf(rs), |file.source|)
  {
    if write then Replaced(file.source, EditsOf(rs), 0) else file.source
  }

  // The first i files hold what their parts of the plan make of them.
  ghost predicate Done(files: seq<File>, plan: seq<seq<Rewrite>>, i: nat, write: bool, after: seq<string>) {
    && |after| == i <= |plan| == |files|
    && forall j | 0 <= j < i ::
         && Fitting(EditsOf(plan[j]), |files[j].source|)
         && after[j] == TextAfter(files[j], plan[j], write)
  }

  ghost predicate PlanDone(files: seq<File>, plan: seq<seq<Rewrite>>, write: bool, after: seq<string>) {
    Done(files, plan, |files|, write, after)
  }

  lemma DoneNext(files: seq<File>, plan: seq<seq<Rewrite>>, i: nat, write: bool, after: seq<string>, next: string)
    requires Done(files, plan, i, write, after) && i < |files|
    requires Fitting(EditsOf(plan[i]), |files[i].source|) && next == TextAfter(files[i], plan[i], write)
    ensures Done(files, plan, i + 1, write, after + [next])
  {
  }

  lemma AllEntered(files: seq<File>, plan: seq<seq<Rewrite>>, write: bool, after: seq<string>)
    requires |files| == |plan|
    ensures plan[|files|..] == [] && Flat(plan[|files|..]) == []
    ensures forall catalogue, malay :: EnterAll(catalogue, Flat(plan[|files|..]), malay) == catalogue
    ensures RetiredBy(Flat(plan[|files|..])) == {}
  {
    assert plan[|files|..] == [];
  }

  // After i files the catalogue lacks only what the rest of the plan enters.
  ghost predicate Entered(first: Catalogue, plan: seq<seq<Rewrite>>, i: nat, malay: bool, now: Catalogue) {
    && i <= |plan|
    && DistinctKeys(Flat(plan[i..]))
    && EnterAll(now, Flat(plan[i..]), malay) == EnterAll(first, Flat(plan), malay)
  }

  lemma PlanNext(files: seq<File>, plan: seq<seq<Rewrite>>, i: nat, en: Catalogue, ms: Catalogue, claimed: Catalogue)
    requires i < |files| == |plan| && plan[i..] == Plan(files[i..], en, ms, claimed)
    ensures plan[i] == FileRewrites(files[i], en, ms, claimed)
    ensures plan[i + 1..] == Plan(files[i + 1..], EnterAll(en, plan[i], false), EnterAll(ms, plan[i], true),
        FileClaims(files[i], en, ms, claimed))
    ensures RetiredBy(Flat(plan[i..])) == RetiredBy(plan[i]) + RetiredBy(Flat(plan[i + 1..]))
  {
    assert files[i..][0] == files[i] && files[i..][1..] == files[i + 1..];
    assert plan[i..][0] == plan[i] && plan[i..][1..] == plan[i + 1..];
    RetiredConcat(plan[i], Flat(plan[i + 1..]));
  }

  lemma EnteredNext(first: Catalogue, plan: seq<seq<Rewrite>>, i: nat, malay: bool, now: Catalogue)
    requires i < |plan| && Entered(first, plan, i, malay, now)
    ensures Entered(first, plan, i + 1, malay, EnterAll(now, plan[i], malay))
  {
    var rest := plan[i..];
    assert rest[0] == plan[i] && rest[1..] == plan[i + 1..];
    FilesInTurn(now, rest, malay);
    DistinctTail(plan[i], Flat(plan[i + 1..]));
  }

  lemma DistinctTail(left: seq<Rewrite>, right: seq<Rewrite>)
    requires DistinctKeys(left + right)
    ensures DistinctKeys(right)
  {
    assert forall i | 0 <= i < |right| :: right[i] == (left + right)[|left| + i];
  }

  lemma {:induction false} RetiredConcat(left: seq<Rewrite>, right: seq<Rewrite>)
    ensures RetiredBy(left + right) == RetiredBy(left) + RetiredBy(right)
  {
    if left == [] {
      assert left + right == right;
    } else {
      assert (left + right)[1..] == left[1..] + right;
      RetiredConcat(left[1..], right);
    }
  }

  // What is still to be rewritten brings the list and the claims to their end.
  ghost predicate Remaining(rest: seq<Run>, en: Catalogue, ms: Catalogue, claimed: Catalogue,
                            rewrites: seq<Rewrite>, all: seq<Rewrite>, last: Catalogue) {
    && rewrites + RewriteAll(rest, en, ms, claimed) == all
    && ClaimedAfter(rest, en, ms, claimed) == last
  }

  lemma AllRemain(runs: seq<Run>, en: Catalogue, ms: Catalogue, claimed: Catalogue, rewrites: seq<Rewrite>)
    ensures Remaining(runs[0..], en, ms, claimed, rewrites,
                      rewrites + RewriteAll(runs, en, ms, claimed), ClaimedAfter(runs, en, ms, claimed))
  {
    assert runs[0..] == runs;
  }

  lemma NoneRemain(rest: seq<Run>, en: Catalogue, ms: Catalogue, claimed: Catalogue,
                   rewrites: seq<Rewrite>, all: seq<Rewrite>, last: Catalogue)
    requires rest == [] && Remaining(rest, en, ms, claimed, rewrites, all, last)
    ensures rewrites == all && claimed == last
  {
  }

  lemma NextRun(run: Run, rest: seq<Run>, en: Catalogue, ms: Catalogue, claimed: Catalogue,
                rewrites: seq<Rewrite>, all: seq<Rewrite>, last: Catalogue)
    requires Remaining([run] + rest, en, ms, claimed, rewrites, all, last)
    ensures
      var r := Combine(run, en, ms, claimed);
      Remaining(rest, en, ms, Claim(r, claimed), rewrites + Listed(r), all, last)
  {
    assert ([run] + rest)[0] == run && ([run] + rest)[1..] == rest;
    var r := Combine(run, en, ms, claimed);
    Regroup(rewrites, Listed(r), RewriteAll(rest, en, ms, Claim(r, claimed)));
  }

  lemma VisitedInTurn(had: seq<Rewrite>, a: seq<Run>, b: seq<Run>, c: seq<Run>, en: Catalogue, ms: Catalogue,
                      claimed: Catalogue)
    ensures
      var afterA := ClaimedAfter(a, en, ms, claimed);
      var afterB := ClaimedAfter(b, en, ms, afterA);
      && had + RewriteAll(a, en, ms, claimed) + RewriteAll(b, en, ms, afterA) + RewriteAll(c, en, ms, afterB)
         == had + RewriteAll(a + (b + c), en, ms, claimed)
      && ClaimedAfter(c, en, ms, afterB) == ClaimedAfter(a + (b + c), en, ms, claimed)
  {
    var afterA := ClaimedAfter(a, en, ms, claimed);
    var afterB := ClaimedAfter(b, en, ms, afterA);
    RewriteAllConcat(a, b + c, en, ms, claimed);
    RewriteAllConcat(b, c, en, ms, afterA);
    Regroup4(had, RewriteAll(a, en, ms, claimed), RewriteAll(b, en, ms, afterA), RewriteAll(c, en, ms, afterB));
  }

  lemma Regroup4<T>(a: seq<T>, b: seq<T>, c: seq<T>, d: seq<T>)
    ensures a + b + c + d == a + (b + (c + d))
  {
    Regroup(a, b, c + d);
    Regroup(a + b, c, d);
  }

  lemma EnterOne(before: seq<Rewrite>, r: Rewrite, catalogue: Catalogue, malay: bool)
    requires DistinctKeys(before + [r])
    ensures EnterAll(catalogue, before + [r], malay)
         == EnterAll(catalogue, before, malay)[r.newKey := if malay then r.malay else r.english]
  {
    TextsConcat(before, [r], malay);
    OneText(r, malay);
    var text := if malay then r.malay else r.english;
    assert catalogue + (Texts(before, malay) + map[r.newKey := text])
        == (catalogue + Texts(before, malay))[r.newKey := text];
  }

  lemma OneText(r: Rewrite, malay: bool)
    ensures Texts([r], malay) == map[r.newKey := if malay then r.malay else r.english]
  {
    assert [r][1..] == [];
  }

  lemma FilesInTurn(catalogue: Catalogue, plan: seq<seq<Rewrite>>, malay: bool)
    requires plan != [] && DistinctKeys(Flat(plan))
    ensures EnterAll(EnterAll(catalogue, plan[0], malay), Flat(plan[1..]), malay)
        == EnterAll(catalogue, Flat(plan), malay)
  {
    TextsConcat(plan[0], Flat(plan[1..]), malay);
  }

  // ---- what the run as a whole promises ----

  // A key keeps its entry unless it was retired and no file quotes it any more.
  function Kept(catalogue: Catalogue, all: seq<Rewrite>, malay: bool, after: seq<string>): Catalogue {
    EnterAll(catalogue, all, malay) - Gone(RetiredBy(all), after)
  }

  // The two languages keep the same keys.
  lemma KeySetsStayEqual(en: Catalogue, ms: Catalogue, all: seq<Rewrite>, after: seq<string>)
    requires en.Keys == ms.Keys
    ensures Kept(en, all, false, after).Keys == Kept(ms, all, true, after).Keys
  {
    TextsKeys(all, false);
    TextsKeys(all, true);
  }

  // An old entry goes exactly when it was retired and nothing quotes it, and
  // one that stays keeps its text.
  lemma OldEntriesKept(catalogue: Catalogue, all: seq<Rewrite>, malay: bool, after: seq<string>, key: string)
    requires FreshKeys(all, catalogue.Keys) && key in catalogue
    ensures key in Kept(catalogue, all, malay, after) <==>
            !(key in RetiredBy(all) && !Contains(Join(after, "\n"), QuotedKey(key)))
    ensures key in Kept(catalogue, all, malay, after) ==> Kept(catalogue, all, malay, after)[key] == catalogue[key]
  {
    TextsKeys(all, malay);
    IncludesIsContains(Join(after, "\n"), QuotedKey(key));
    assert key !in NewKeys(all);
  }

  // A key that a file quotes keeps the entry it had, old or new.
  lemma QuotedKeysStay(catalogue: Catalogue, all: seq<Rewrite>, malay: bool, after: seq<string>, i: nat, key: string)
    requires i < |after| && Contains(after[i], QuotedKey(key))
    requires key in EnterAll(catalogue, all, malay)
    ensures key in Kept(catalogue, all, malay, after)
    ensures Kept(catalogue, all, malay, after)[key] == EnterAll(catalogue, all, malay)[key]
  {
    ContainsJoin(after, "\n", i, QuotedKey(key));
    IncludesIsContains(Join(after, "\n"), QuotedKey(key));
  }

  // The replacement quotes its own key.
  lemma ReplacementQuotes(run: Run, en: Catalogue, ms: Catalogue, claimed: Catalogue)
    requires Combine(run, en, ms, claimed).Some?
    ensures Contains(Combine(run, en, ms, claimed).value.replacement,
        QuotedKey(Combine(run, en, ms, claimed).value.newKey))
  {
    var parts := PartsOf(run);
    ReplacementHolds(Combine(run, en, ms, claimed).value.newKey,
        Rendering.Bindings(Rendering.Expressions(parts), map[]));
  }

  lemma ReplacementHolds(newKey: string, bindings: seq<Rendering.Binding>)
    ensures Contains(Replacement(newKey, bindings), QuotedKey(newKey))
  {
    var front, back := "{t(", ", { " + Join(ShownBindings(bindings), ", ") + " })}";
    assert Replacement(newKey, bindings) == front + QuotedKey(newKey) + back;
  }

  lemma {:induction false} RewritesQuote(runs: seq<Run>, en: Catalogue, ms: Catalogue, claimed: Catalogue, r: Rewrite)
    requires r in RewriteAll(runs, en, ms, claimed)
    ensures Contains(r.replacement, QuotedKey(r.newKey))
  {
    var first := Combine(runs[0], en, ms, claimed);
    if first.Some? && first.value == r {
      ReplacementQuotes(runs[0], en, ms, claimed);
    } else {
      RewritesQuote(runs[1..], en, ms, Claim(first, claimed), r);
    }
  }

  // The catalogues a file is read with: the first ones and what earlier files
  // entered.
  lemma {:induction false} PlanAt(files: seq<File>, en: Catalogue, ms: Catalogue, claimed: Catalogue, i: nat)
    returns (e: Catalogue, m: Catalogue, c: Catalogue)
    requires i < |files|
    ensures Plan(files, en, ms, claimed)[i] == FileRewrites(files[i], e, m, c)
    decreases files
  {
    if i == 0 {
      e, m, c := en, ms, claimed;
    } else {
      var rs := FileRewrites(files[0], en, ms, claimed);
      var e', m', c' := EnterAll(en, rs, false), EnterAll(ms, rs, true), FileClaims(files[0], en, ms, claimed);
      assert Plan(files, en, ms, claimed)[i] == Plan(files[1..], e', m', c')[i - 1];
      e, m, c := PlanAt(files[1..], e', m', c', i - 1);
    }
  }

  // With --write, every new entry is in both catalogues at the end with the
  // text its run was given: no later rewrite takes its key, and retirement
  // spares it because the file that was rewritten quotes it.
  lemma EveryRewriteSurvives(files: seq<File>, en: Catalogue, ms: Catalogue, after: seq<string>, i: nat, r: Rewrite)
    requires forall file | file in files :: Parsed(file)
    requires PlanDone(files, Plan(files, en, ms, map[]), true, after)
    requires i < |files| && r in Plan(files, en, ms, map[])[i]
    ensures
      var all := Flat(Plan(files, en, ms, map[]));
      && r.newKey !in en
      && r.newKey in Kept(en, all, false, after) && Kept(en, all, false, after)[r.newKey] == r.english
      && r.newKey in Kept(ms, all, true, after) && Kept(ms, all, true, after)[r.newKey] == r.malay
  {
    var plan := Plan(files, en, ms, map[]);
    PlanIsFresh(files, en, ms, map[]);
    FlatHas(plan, i, r);
    PlanFits(files, en, ms, map[]);
    var edits := EditsOf(plan[i]);
    var k :| 0 <= k < |plan[i]| && plan[i][k] == r;
    assert edits[k] == EditOf(r) && edits[k] in edits;
    ReplacedHolds(files[i].source, edits, 0, EditOf(r));
    var e, m, c := PlanAt(files, en, ms, map[], i);
    RewritesQuote(RunsOf(files[i].tree), e, m, c, r);
    ContainsChain(after[i], r.replacement, QuotedKey(r.newKey));
    TextsOf(Flat(plan), false, r);
    TextsOf(Flat(plan), true, r);
    QuotedKeysStay(en, Flat(plan), false, after, i, r.newKey);
    QuotedKeysStay(ms, Flat(plan), true, after, i, r.newKey);
  }

  lemma ContainsChain(s: string, middle: string, part: string)
    requires Contains(s, middle) && Contains(middle, part)
    ensures Contains(s, part)
  {
    var before, after :| s == before + middle + after;
    ContainsWithin(before, middle, after, part);
  }
}
