// The whole run of the script over a set of files: rewrite, splice, enter the
// new entries, retire the old keys (scripts/recombine-messages.ts, main).
module Recombiner {
  import opened Text
  import opened Messages
  import opened JsxTree
  import opened RunScanner
  import opened Runs
  import opened Rewrites
  import opened Splice

  // ---- the rewrites of a list of runs ----

  function Claim(r: Option<Rewrite>, claimed: Catalogue): Catalogue {
    if r.Some? then claimed[r.value.newKey := r.value.english] else claimed
  }

  function Listed(r: Option<Rewrite>): seq<Rewrite> {
    if r.Some? then [r.value] else []
  }

  function RewriteAll(runs: seq<Run>, en: Catalogue, ms: Catalogue, claimed: Catalogue): seq<Rewrite> {
    if runs == [] then []
    else
      var r := Combine(runs[0], en, ms, claimed);
      Listed(r) + RewriteAll(runs[1..], en, ms, Claim(r, claimed))
  }

  function ClaimedAfter(runs: seq<Run>, en: Catalogue, ms: Catalogue, claimed: Catalogue): Catalogue {
    if runs == [] then claimed
    else ClaimedAfter(runs[1..], en, ms, Claim(Combine(runs[0], en, ms, claimed), claimed))
  }

  lemma {:induction false} RewriteAllConcat(left: seq<Run>, right: seq<Run>, en: Catalogue, ms: Catalogue,
                                            claimed: Catalogue)
    ensures RewriteAll(left + right, en, ms, claimed)
         == RewriteAll(left, en, ms, claimed) + RewriteAll(right, en, ms, ClaimedAfter(left, en, ms, claimed))
    ensures ClaimedAfter(left + right, en, ms, claimed)
         == ClaimedAfter(right, en, ms, ClaimedAfter(left, en, ms, claimed))
  {
    if left == [] {
      assert left + right == right;
    } else {
      assert (left + right)[1..] == left[1..] + right && (left + right)[0] == left[0];
      var r := Combine(left[0], en, ms, claimed);
      RewriteAllConcat(left[1..], right, en, ms, Claim(r, claimed));
      Regroup(Listed(r), RewriteAll(left[1..], en, ms, Claim(r, claimed)),
              RewriteAll(right, en, ms, ClaimedAfter(left, en, ms, claimed)));
    }
  }

  // ---- the new keys ----

  ghost predicate DistinctKeys(rewrites: seq<Rewrite>) {
    forall i, j | 0 <= i < j < |rewrites| :: rewrites[i].newKey != rewrites[j].newKey
  }

  ghost predicate FreshKeys(rewrites: seq<Rewrite>, taken: set<string>) {
    forall r | r in rewrites :: r.newKey !in taken
  }

  function NewKeys(rewrites: seq<Rewrite>): set<string> { set r | r in rewrites :: r.newKey }

  lemma ClaimKeys(r: Option<Rewrite>, claimed: Catalogue)
    ensures Claim(r, claimed).Keys == claimed.Keys + NewKeys(Listed(r))
  {
    assert r.Some? ==> NewKeys(Listed(r)) == {r.value.newKey};
  }

  lemma {:induction false} ClaimedKeys(runs: seq<Run>, en: Catalogue, ms: Catalogue, claimed: Catalogue)
    ensures ClaimedAfter(runs, en, ms, claimed).Keys == claimed.Keys + NewKeys(RewriteAll(runs, en, ms, claimed))
  {
    if runs != [] {
      var r := Combine(runs[0], en, ms, claimed);
      ClaimKeys(r, claimed);
      ClaimedKeys(runs[1..], en, ms, Claim(r, claimed));
      var rest := RewriteAll(runs[1..], en, ms, Claim(r, claimed));
      assert NewKeys(Listed(r) + rest) == NewKeys(Listed(r)) + NewKeys(rest);
    }
  }

  // Within a file no new key collides with an entry, a claimed key or another
  // new key.
  lemma {:induction false} RewriteAllFresh(runs: seq<Run>, en: Catalogue, ms: Catalogue, claimed: Catalogue)
    ensures DistinctKeys(RewriteAll(runs, en, ms, claimed))
    ensures FreshKeys(RewriteAll(runs, en, ms, claimed), en.Keys + claimed.Keys)
  {
    if runs != [] {
      var r := Combine(runs[0], en, ms, claimed);
      ClaimKeys(r, claimed);
      CombineIsFresh(runs[0], en, ms, claimed);
      RewriteAllFresh(runs[1..], en, ms, Claim(r, claimed));
      FirstIsFresh(r, RewriteAll(runs[1..], en, ms, Claim(r, claimed)), en.Keys, claimed.Keys);
    }
  }

  lemma CombineIsFresh(run: Run, en: Catalogue, ms: Catalogue, claimed: Catalogue)
    ensures Combine(run, en, ms, claimed).Some? ==>
        Combine(run, en, ms, claimed).value.newKey !in en.Keys + claimed.Keys
  {
  }

  lemma FirstIsFresh(r: Option<Rewrite>, rest: seq<Rewrite>, en: set<string>, claimed: set<string>)
    requires r.Some? ==> r.value.newKey !in en + claimed
    requires DistinctKeys(rest) && FreshKeys(rest, en + (claimed + NewKeys(Listed(r))))
    ensures DistinctKeys(Listed(r) + rest) && FreshKeys(Listed(r) + rest, en + claimed)
  {
    if r.Some? {
      assert r.value in Listed(r);
      forall x | x in rest ensures x.newKey != r.value.newKey {
        assert r.value.newKey in NewKeys(Listed(r));
      }
      DistinctConcat(Listed(r), rest);
    } else {
      assert Listed(r) + rest == rest;
    }
  }

  // ---- spans of rewrites ----

  function EditOf(r: Rewrite): Edit { Edit(r.lo, r.hi, r.replacement) }

  function EditsOf(rewrites: seq<Rewrite>): (r: seq<Edit>)
    ensures |r| == |rewrites|
    ensures forall i | 0 <= i < |r| :: r[i] == EditOf(rewrites[i])
  {
    seq(|rewrites|, i requires 0 <= i < |rewrites| => EditOf(rewrites[i]))
  }

  ghost predicate FromRun(r: Rewrite, runs: seq<Run>) {
    exists run :: run in runs && run != [] && r.lo == Start(run) && r.hi == End(run)
  }

  lemma {:induction false} RewritesComeFromRuns(runs: seq<Run>, en: Catalogue, ms: Catalogue, claimed: Catalogue)
    requires AllApart(runs)
    ensures
      var rs := RewriteAll(runs, en, ms, claimed);
      && (forall r | r in rs :: FromRun(r, runs))
      && AllClear(EditsOf(rs))
  {
    if runs != [] {
      var r := Combine(runs[0], en, ms, claimed);
      var next := Claim(r, claimed);
      RewritesComeFromRuns(runs[1..], en, ms, next);
      var rest := RewriteAll(runs[1..], en, ms, next);
      var rs := Listed(r) + rest;
      assert runs[0] in runs;
      forall x | x in rest ensures FromRun(x, runs) && (r.Some? ==> Clear(EditOf(r.value), EditOf(x))) {
        var run :| run in runs[1..] && run != [] && x.lo == Start(run) && x.hi == End(run);
        var k :| 0 < k < |runs| && runs[k] == run;
        assert Apart(runs[0], runs[k]);
      }
      FirstIsClear(r, rest);
    }
  }

  lemma FirstIsClear(r: Option<Rewrite>, rest: seq<Rewrite>)
    requires AllClear(EditsOf(rest))
    requires forall x | x in rest :: r.Some? ==> Clear(EditOf(r.value), EditOf(x))
    ensures AllClear(EditsOf(Listed(r) + rest))
  {
    if r.None? {
      assert Listed(r) + rest == rest;
    } else {
      var edits := EditsOf([r.value] + rest);
      assert edits[1..] == EditsOf(rest);
      forall i, j | 0 <= i < j < |edits| ensures Clear(edits[i], edits[j]) {
        if i == 0 {
          assert rest[j - 1] in rest;
        } else {
          assert edits[i] == EditsOf(rest)[i - 1] && edits[j] == EditsOf(rest)[j - 1];
        }
      }
    }
  }

  // A file: its text, and the tree the parser made of it.
  datatype File = File(source: string, tree: Node)

  ghost predicate Parsed(file: File) {
    WellFormed(file.tree) && file.tree.hi <= |file.source|
  }

  function FileRewrites(file: File, en: Catalogue, ms: Catalogue, claimed: Catalogue): seq<Rewrite> {
    RewriteAll(RunsOf(file.tree), en, ms, claimed)
  }

  function FileClaims(file: File, en: Catalogue, ms: Catalogue, claimed: Catalogue): Catalogue {
    ClaimedAfter(RunsOf(file.tree), en, ms, claimed)
  }

  // The rewrites of one file can be spliced into it.
  lemma FileIsSpliceable(file: File, en: Catalogue, ms: Catalogue, claimed: Catalogue)
    requires Parsed(file)
    ensures Fitting(EditsOf(FileRewrites(file, en, ms, claimed)), |file.source|)
    ensures AllClear(EditsOf(FileRewrites(file, en, ms, claimed)))
  {
    RunsApart(file.tree);
    RewritesComeFromRuns(RunsOf(file.tree), en, ms, claimed);
    var rs := FileRewrites(file, en, ms, claimed);
    forall e | e in EditsOf(rs) ensures e.lo < e.hi <= |file.source| {
      var k :| 0 <= k < |rs| && EditOf(rs[k]) == e;
      assert rs[k] in rs && FromRun(rs[k], RunsOf(file.tree));
    }
  }

  // ---- one file after another ----

  function Texts(rewrites: seq<Rewrite>, malay: bool): Catalogue {
    if rewrites == [] then map[]
    else
      Texts(rewrites[1..], malay)[rewrites[0].newKey := if malay then rewrites[0].malay else rewrites[0].english]
  }

  function EnterAll(catalogue: Catalogue, rewrites: seq<Rewrite>, malay: bool): Catalogue {
    catalogue + Texts(rewrites, malay)
  }

  lemma {:induction false} TextsKeys(rewrites: seq<Rewrite>, malay: bool)
    ensures Texts(rewrites, malay).Keys == NewKeys(rewrites)
  {
    if rewrites != [] {
      TextsKeys(rewrites[1..], malay);
      assert rewrites == [rewrites[0]] + rewrites[1..];
    }
  }

  // With distinct keys every rewrite's text is the one entered.
  lemma {:induction false} TextsOf(rewrites: seq<Rewrite>, malay: bool, r: Rewrite)
    requires DistinctKeys(rewrites) && r in rewrites
    ensures r.newKey in Texts(rewrites, malay)
    ensures Texts(rewrites, malay)[r.newKey] == if malay then r.malay else r.english
  {
    var rest := rewrites[1..];
    if r != rewrites[0] {
      var j :| 0 < j < |rewrites| && rewrites[j] == r;
      assert rewrites[0].newKey != rewrites[j].newKey;
      assert rest[j - 1] == r;
      TextsOf(rest, malay, r);
    }
  }

  // The rewrites of each file, every file read with the entries of those before.
  function Plan(files: seq<File>, en: Catalogue, ms: Catalogue, claimed: Catalogue): (r: seq<seq<Rewrite>>)
    ensures |r| == |files|
  {
    if files == [] then []
    else
      var rs := FileRewrites(files[0], en, ms, claimed);
      [rs] + Plan(files[1..], EnterAll(en, rs, false), EnterAll(ms, rs, true), FileClaims(files[0], en, ms, claimed))
  }

  function Flat(plan: seq<seq<Rewrite>>): seq<Rewrite> {
    if plan == [] then [] else plan[0] + Flat(plan[1..])
  }

  lemma {:induction false} FlatHas(plan: seq<seq<Rewrite>>, i: nat, r: Rewrite)
    requires i < |plan| && r in plan[i]
    ensures r in Flat(plan)
  {
    if i > 0 {
      FlatHas(plan[1..], i - 1, r);
    }
  }

  // Over any set of files: no new key collides with an entry of the catalogue
  // or with another new key, in the same file or in any other.
  lemma {:induction false} PlanIsFresh(files: seq<File>, en: Catalogue, ms: Catalogue, claimed: Catalogue)
    requires claimed.Keys <= en.Keys
    ensures DistinctKeys(Flat(Plan(files, en, ms, claimed)))
    ensures FreshKeys(Flat(Plan(files, en, ms, claimed)), en.Keys)
  {
    if files != [] {
      var rs := FileRewrites(files[0], en, ms, claimed);
      var en', ms', claimed' := EnterAll(en, rs, false), EnterAll(ms, rs, true), FileClaims(files[0], en, ms, claimed);
      RewriteAllFresh(RunsOf(files[0].tree), en, ms, claimed);
      ClaimedKeys(RunsOf(files[0].tree), en, ms, claimed);
      TextsKeys(rs, false);
      PlanIsFresh(files[1..], en', ms', claimed');
      var later := Flat(Plan(files[1..], en', ms', claimed'));
      forall a, b | a in rs && b in later ensures a.newKey != b.newKey {
        assert a.newKey in NewKeys(rs) && b.newKey !in en'.Keys;
      }
      DistinctConcat(rs, later);
    }
  }

  lemma DistinctConcat(left: seq<Rewrite>, right: seq<Rewrite>)
    requires DistinctKeys(left) && DistinctKeys(right)
    requires forall a, b | a in left && b in right :: a.newKey != b.newKey
    ensures DistinctKeys(left + right)
  {
    var all := left + right;
    forall i, j | 0 <= i < j < |all| ensures all[i].newKey != all[j].newKey {
      if i < |left| <= j {
        assert all[i] in left && all[j] in right;
      }
    }
  }

  // Entering file by file is entering everything, as the keys are all distinct.
  lemma {:induction false} TextsConcat(left: seq<Rewrite>, right: seq<Rewrite>, malay: bool)
    requires DistinctKeys(left + right)
    ensures Texts(left + right, malay) == Texts(left, malay) + Texts(right, malay)
  {
    var all := left + right;
    if left == [] {
      assert all == right;
    } else {
      assert all[1..] == left[1..] + right;
      assert DistinctKeys(left[1..] + right) by {
        assert forall i | 0 <= i < |all| - 1 :: (left[1..] + right)[i] == all[i + 1];
      }
      TextsConcat(left[1..], right, malay);
      TextsKeys(right, malay);
      forall b | b in right ensures b.newKey != left[0].newKey {
        var j :| 0 <= j < |right| && right[j] == b;
        assert all[|left| + j] == b && all[0] == left[0];
      }
      assert left[0].newKey !in Texts(right, malay);
    }
  }
}
