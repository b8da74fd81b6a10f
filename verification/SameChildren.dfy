// The law the rewriter exists for, over every list of children: with each of
// its runs replaced by one message, the list reads as it did before. It holds
// exactly when every run is safe to combine, no whitespace is trimmed off a run
// where it shows, and no term the list names has lost its entry
// (scripts/recombine-messages.ts, rewritesFor, read with translate in
// packages/ui/src/i18n/catalogue.ts and fillTermHole in terms.ts).
module SameChildren {
  import opened Text
  import opened Messages
  import opened JsxTree
  import opened RunScanner
  import opened HoleNaming
  import opened Sentences
  import opened Rendering
  import opened Layout
  import opened SameScreen

  // ---- a list on the screen ----

  // What a value may be where it is put between children: a text or a number,
  // or one of the four that JSX leaves out and a message spells.
  datatype Val = Reads(text: string) | True | False | Null | Undefined

  function OnScreen(v: Val): string { if v.Reads? then v.text else "" }

  function InMessage(v: Val): string {
    match v
    case Reads(text) => text
    case True => "true"
    case False => "false"
    case Null => "null"
    case Undefined => "undefined"
  }

  // What values, the terms a workspace renamed and the children that are no
  // part of any run come to in one render.
  datatype View = View(values: string -> Val, renamed: Renames, boxes: nat -> string)

  // A word a workspace may give a term.
  predicate Usable(word: string) {
    1 <= |word| <= 40 && !IsSpace(word[0]) && !IsSpace(word[|word| - 1])
  }

  ghost predicate IsRenaming(renamed: Renames) {
    forall term | term in renamed ::
      IsTerm(term) && Usable(renamed[term].singular) && Usable(renamed[term].plural)
  }

  ghost predicate IsRender(view: View) { IsRenaming(view.renamed) }

  function ScreenValues(values: string -> Val): string -> string { (e: string) => OnScreen(values(e)) }

  function MessageTexts(values: string -> Val): string -> string { (e: string) => InMessage(values(e)) }

  function Both(a: Option<string>, b: Option<string>): Option<string> {
    if a.Some? && b.Some? then Some(a.value + b.value) else None
  }

  // The child in place k. None where a message throws.
  function ShownChild(part: Part, k: nat, catalogue: Catalogue, view: View): Option<string> {
    match part
    case Literal(_, shown) => Some(shown)
    case Message(key) => Translate(catalogue, key, None, view.renamed)
    case Value(e) => Some(OnScreen(view.values(e)))
    case Barrier => Some(view.boxes(k))
  }

  // The children from lo up to, not including, hi.
  function Shown(parts: seq<Part>, lo: nat, hi: nat, catalogue: Catalogue, view: View): Option<string>
    requires lo <= hi <= |parts|
    decreases hi - lo
  {
    if lo == hi then Some("")
    else Both(ShownChild(parts[lo], lo, catalogue, view), Shown(parts, lo + 1, hi, catalogue, view))
  }

  // The call of `t` that stands for a run.
  function ShownRun(run: seq<Part>, key: string, catalogue: Catalogue, view: View): Option<string> {
    Translate(catalogue, key, Some(RunValues(run, MessageTexts(view.values))), view.renamed)
  }

  // The literals directly before and directly behind a place.
  function LeftStart(parts: seq<Part>, k: nat): (r: nat)
    requires k <= |parts|
    ensures r <= k && forall i | r <= i < k :: parts[i].Literal?
    ensures r > 0 ==> !parts[r - 1].Literal?
  {
    if k > 0 && parts[k - 1].Literal? then LeftStart(parts, k - 1) else k
  }

  function RightEnd(parts: seq<Part>, k: nat): (r: nat)
    requires k <= |parts|
    ensures k <= r <= |parts| && forall i | k <= i < r :: parts[i].Literal?
    ensures r < |parts| ==> !parts[r].Literal?
    decreases |parts| - k
  {
    if k < |parts| && parts[k].Literal? then RightEnd(parts, k + 1) else k
  }

  function LiteralText(parts: seq<Part>, lo: nat, hi: nat): string
    requires lo <= hi <= |parts| && forall i | lo <= i < hi :: parts[i].Literal?
    decreases hi - lo
  {
    if lo == hi then "" else parts[lo].shown + LiteralText(parts, lo + 1, hi)
  }

  function LeftText(parts: seq<Part>, k: nat): string
    requires k <= |parts|
  {
    LiteralText(parts, LeftStart(parts, k), k)
  }

  function RightText(parts: seq<Part>, k: nat): string
    requires k <= |parts|
  {
    LiteralText(parts, k, RightEnd(parts, k))
  }

  // A run fills what lies between two barriers or the ends of the list, but
  // for literals at either end, and holds a value.
  ghost predicate IsFramed(parts: seq<Part>, r: Range) {
    && r.lo < r.hi <= |parts|
    && !parts[r.lo].Literal?
    && (forall i | r.lo <= i < r.hi :: !parts[i].Barrier?)
    && (exists i | r.lo <= i < r.hi :: parts[i].Value?)
    && (LeftStart(parts, r.lo) == 0 || parts[LeftStart(parts, r.lo) - 1].Barrier?)
    && (RightEnd(parts, r.hi) == |parts| || parts[RightEnd(parts, r.hi)].Barrier?)
  }

  // Framed runs one after another from lo on.
  ghost predicate Placed(parts: seq<Part>, ranges: seq<Range>, lo: nat)
    decreases |ranges|
  {
    if ranges == [] then lo <= |parts|
    else
      var r := ranges[0];
      IsFramed(parts, r) && lo <= LeftStart(parts, r.lo) && Placed(parts, ranges[1..], r.hi)
  }

  // The children from lo on, with every run replaced by its message.
  function Rewritten(parts: seq<Part>, ranges: seq<Range>, keys: seq<string>, lo: nat, catalogue: Catalogue, view: View)
    : Option<string>
    requires Placed(parts, ranges, lo) && |keys| == |ranges|
    decreases |ranges|
  {
    if ranges == [] then Shown(parts, lo, |parts|, catalogue, view)
    else
      var r := ranges[0];
      Both(Shown(parts, lo, r.lo, catalogue, view),
           Both(ShownRun(parts[r.lo..r.hi], keys[0], catalogue, view),
                Rewritten(parts, ranges[1..], keys[1..], r.hi, catalogue, view)))
  }

  // What the catalogue becomes: an entry for every run, and the entries of the
  // other children as they were.
  ghost predicate SameEntries(parts: seq<Part>, lo: nat, hi: nat, catalogue: Catalogue, final: Catalogue)
    requires lo <= hi <= |parts|
  {
    forall i | lo <= i < hi && parts[i].Message? ::
      parts[i].key in catalogue && parts[i].key in final && final[parts[i].key] == catalogue[parts[i].key]
  }

  ghost predicate HoldsEntries(parts: seq<Part>, ranges: seq<Range>, keys: seq<string>, lo: nat, catalogue: Catalogue,
                               final: Catalogue)
    requires Placed(parts, ranges, lo) && |keys| == |ranges|
    decreases |ranges|
  {
    if ranges == [] then SameEntries(parts, lo, |parts|, catalogue, final)
    else
      var r := ranges[0];
      && SameEntries(parts, lo, r.lo, catalogue, final)
      && Known(parts[r.lo..r.hi], catalogue)
      && keys[0] in final && final[keys[0]] == Combined(parts[r.lo..r.hi], catalogue)
      && HoldsEntries(parts, ranges[1..], keys[1..], r.hi, catalogue, final)
  }

  // ---- the law and its condition ----

  ghost predicate ShowsAlike(parts: seq<Part>, ranges: seq<Range>, keys: seq<string>, lo: nat, catalogue: Catalogue,
                             final: Catalogue, view: View)
    requires Placed(parts, ranges, lo) && |keys| == |ranges| && lo <= |parts|
  {
    var before, after := Shown(parts, lo, |parts|, catalogue, view), Rewritten(parts, ranges, keys, lo, final, view);
    before.Some? && after.Some? && Alike(before.value, after.value)
  }

  // The values are texts and numbers, as the messages' type has them.
  ghost predicate Readable(view: View) { forall e :: view.values(e).Reads? }

  // Whatever the values, the renamed terms and the other children.
  ghost predicate AlwaysAlike(parts: seq<Part>, ranges: seq<Range>, keys: seq<string>, catalogue: Catalogue,
                              final: Catalogue)
    requires Placed(parts, ranges, 0) && |keys| == |ranges|
  {
    forall view | IsRender(view) && Readable(view) :: ShowsAlike(parts, ranges, keys, 0, catalogue, final, view)
  }

  // Whitespace the run begins or ends with has whitespace beside it.
  ghost predicate EdgesHidden(parts: seq<Part>, r: Range, catalogue: Catalogue)
    requires IsFramed(parts, r) && Known(parts[r.lo..r.hi], catalogue)
  {
    var ps := ScreenPieces(parts[r.lo..r.hi], catalogue);
    && (ps != [] && Blank(ps[0]) ==> EndsBlank(LeftText(parts, r.lo)))
    && (ps != [] && Blank(ps[|ps| - 1]) ==> StartsBlank(RightText(parts, r.hi)))
  }

  // What can be read off the list before it is rewritten.
  ghost predicate AllSafe(parts: seq<Part>, ranges: seq<Range>, catalogue: Catalogue)
    requires Known(parts, catalogue)
  {
    forall r | r in ranges && IsFramed(parts, r) :: SafeToCombine(parts[r.lo..r.hi], catalogue)
  }

  ghost predicate AllHidden(parts: seq<Part>, ranges: seq<Range>, catalogue: Catalogue)
    requires Known(parts, catalogue)
  {
    forall r | r in ranges && IsFramed(parts, r) :: EdgesHidden(parts, r, catalogue)
  }

  // A term one of the children's messages names.
  ghost predicate NamesTerm(parts: seq<Part>, catalogue: Catalogue, name: string)
    requires Known(parts, catalogue)
  {
    IsTermHole(name) && exists part :: part in parts && part.Message? && Hole(name) in Parse(catalogue[part.key], false)
  }

  // Every term the list names has its own word in a catalogue.
  ghost predicate TermsKnown(parts: seq<Part>, catalogue: Catalogue, holder: Catalogue)
    requires Known(parts, catalogue)
  {
    forall name | NamesTerm(parts, catalogue, name) :: TermKey(TermHoleOf(name).value) in holder
  }

  // A list that renders: sound, and with a word for each term it names.
  ghost predicate Complete(parts: seq<Part>, catalogue: Catalogue) {
    Sound(parts, catalogue) && TermsKnown(parts, catalogue, catalogue)
  }

  // ---- words before and after ----

  // The terms the list names read the same with either catalogue.
  ghost predicate SameWords(parts: seq<Part>, catalogue: Catalogue, final: Catalogue, renamed: Renames)
    requires Known(parts, catalogue)
  {
    forall name | NamesTerm(parts, catalogue, name) ::
      WordFor(catalogue, renamed, name).Some? && WordFor(final, renamed, name) == WordFor(catalogue, renamed, name)
  }

  // Where a term still has its entry, the entry is the one it had.
  ghost predicate TermsStand(catalogue: Catalogue, final: Catalogue) {
    forall h: TermHole | TermKey(h) in catalogue && TermKey(h) in final :: final[TermKey(h)] == catalogue[TermKey(h)]
  }

  lemma WordsKept(parts: seq<Part>, catalogue: Catalogue, final: Catalogue, renamed: Renames)
    requires Complete(parts, catalogue) && TermsStand(catalogue, final) && TermsKnown(parts, catalogue, final)
    ensures SameWords(parts, catalogue, final, renamed)
  {
  }

  lemma NamedInSlice(parts: seq<Part>, lo: nat, hi: nat, catalogue: Catalogue, name: string)
    requires lo <= hi <= |parts| && Known(parts, catalogue) && Known(parts[lo..hi], catalogue)
    ensures NamesTerm(parts[lo..hi], catalogue, name) ==> NamesTerm(parts, catalogue, name)
  {
    assert forall part | part in parts[lo..hi] :: part in parts;
  }

  lemma SameWordsSlice(parts: seq<Part>, lo: nat, hi: nat, catalogue: Catalogue, final: Catalogue, renamed: Renames)
    requires lo <= hi <= |parts| && Known(parts, catalogue) && SameWords(parts, catalogue, final, renamed)
    ensures Known(parts[lo..hi], catalogue) && SameWords(parts[lo..hi], catalogue, final, renamed)
  {
    assert forall part | part in parts[lo..hi] :: part in parts;
    forall name | NamesTerm(parts[lo..hi], catalogue, name) ensures NamesTerm(parts, catalogue, name) {
      NamedInSlice(parts, lo, hi, catalogue, name);
    }
  }

  lemma NamedByChild(parts: seq<Part>, i: nat, catalogue: Catalogue, name: string)
    requires i < |parts| && parts[i].Message? && Known(parts, catalogue)
    requires parts[i].key in catalogue && name in HoleNames(Parse(catalogue[parts[i].key], false)) && IsTermHole(name)
    ensures NamesTerm(parts, catalogue, name)
  {
    assert parts[i] in parts;
  }

  // A message child reads the same with either catalogue.
  lemma ChildSaysTheSame(parts: seq<Part>, i: nat, catalogue: Catalogue, final: Catalogue, renamed: Renames)
    requires i < |parts| && parts[i].Message? && Known(parts, catalogue) && SameWords(parts, catalogue, final, renamed)
    requires parts[i].key in catalogue && parts[i].key in final && final[parts[i].key] == catalogue[parts[i].key]
    ensures Translate(final, parts[i].key, None, renamed) == Translate(catalogue, parts[i].key, None, renamed)
  {
    var key := parts[i].key;
    forall name | name in HoleNames(Parse(catalogue[key], false)) && IsTermHole(name)
      ensures WordFor(final, renamed, name) == WordFor(catalogue, renamed, name)
    {
      NamedByChild(parts, i, catalogue, name);
    }
    SameWordsSameText(catalogue, final, key, None, renamed);
  }

  // A message child of a complete list renders, and shows its own pieces.
  lemma ChildSpeaks(parts: seq<Part>, i: nat, catalogue: Catalogue, values: string -> string, renamed: Renames)
    requires i < |parts| && parts[i].Message? && Complete(parts, catalogue)
    ensures parts[i].key in catalogue
    ensures Translate(catalogue, parts[i].key, None, renamed)
         == Some(Spoken(MessagePieces(catalogue[parts[i].key]), values, TermWords(catalogue, renamed)))
  {
    assert parts[i] in parts;
    var message := catalogue[parts[i].key];
    forall name | name in HoleNames(Parse(message, false)) && IsTermHole(name)
      ensures WordFor(catalogue, renamed, name).Some?
    {
      NamedByChild(parts, i, catalogue, name);
    }
    MessageOnItsOwn(message, values, TermWords(catalogue, renamed));
  }

  // The terms of a run's entry are those its children name, as long as the
  // values that come with it are accepted.
  lemma {:induction false} NamedByPieces(parts: seq<Part>, catalogue: Catalogue, name: string)
    requires Known(parts, catalogue)
    ensures Term(name) in RunPieces(parts, catalogue) <==>
            exists part :: part in parts && part.Message? && Hole(name) in Parse(catalogue[part.key], false)
  {
    if parts != [] {
      NamedByPieces(parts[1..], catalogue, name);
      NamedByPart(parts[0], catalogue, name);
      assert parts == [parts[0]] + parts[1..];
    }
  }

  lemma NamedByPart(part: Part, catalogue: Catalogue, name: string)
    requires part.Message? ==> part.key in catalogue
    ensures Term(name) in PartPieces(part, catalogue) <==>
            part.Message? && Hole(name) in Parse(catalogue[part.key], false)
  {
    if part.Message? {
      var tokens, ps := Parse(catalogue[part.key], false), MessagePieces(catalogue[part.key]);
      if Hole(name) in tokens {
        var i :| 0 <= i < |tokens| && tokens[i] == Hole(name);
        assert ps[i] == Term(name);
      }
      if Term(name) in ps {
        var i :| 0 <= i < |ps| && ps[i] == Term(name);
        assert ps[i] == PieceOf(tokens[i]);
      }
    }
  }

  lemma {:induction false} GuardedHoles(tokens: seq<Token>, dollar: bool, name: string)
    requires Hole(name) in Guarded(tokens, dollar)
    ensures Hole(name) in tokens
  {
    if !(tokens[0] == Hole(name)) {
      var next := tokens[0].Ch? && tokens[0].c == '$';
      assert Hole(name) in Guarded(tokens[1..], next);
      GuardedHoles(tokens[1..], next, name);
    }
  }

  lemma EntryHoles(run: seq<Part>, catalogue: Catalogue, name: string)
    requires Sound(run, catalogue) && name in HoleNames(Parse(Combined(run, catalogue), false))
    ensures Term(name) in RunPieces(run, catalogue) || exists e :: e in RunNames(run) && RunNames(run)[e] == name
  {
    var names, tidy := RunNames(run), Tidy(RunPieces(run, catalogue));
    CombinedParses(run, catalogue);
    GuardedHoles(TokensOf(tidy, names), false, name);
    HolesOfTokens(tidy, names);
    TidyKeeps(RunPieces(run, catalogue));
    if Term(name) !in tidy {
      var e :| Slot(e) in tidy && names[e] == name;
      assert e in names;
    }
  }

  // The entry a run is given reads the same with either catalogue, whether the
  // values are accepted or not.
  lemma RunSaysTheSame(run: seq<Part>, catalogue: Catalogue, final: Catalogue, key: string, values: string -> string,
                       renamed: Renames)
    requires Sound(run, catalogue) && SameWords(run, catalogue, final, renamed)
    requires key in final && final[key] == Combined(run, catalogue)
    ensures Translate(final, key, Some(RunValues(run, values)), renamed)
         == Fused(run, catalogue, values, TermWords(catalogue, renamed))
  {
    var message, supplied := Combined(run, catalogue), RunValues(run, values);
    if exists name | name in supplied :: IsTermHole(name) {
      TermIsRefused(message, supplied, TermWords(catalogue, renamed));
      TermIsRefused(message, supplied, TermWords(final, renamed));
    } else {
      forall name | name in HoleNames(Parse(message, false)) && IsTermHole(name)
        ensures WordFor(final, renamed, name).Some?
        ensures TermWords(final, renamed)(name) == TermWords(catalogue, renamed)(name)
      {
        TermOfEntry(run, catalogue, name, values);
      }
      FillSame(message, Some(supplied), TermWords(catalogue, renamed), TermWords(final, renamed));
    }
  }

  lemma TermOfEntry(run: seq<Part>, catalogue: Catalogue, name: string, values: string -> string)
    requires Sound(run, catalogue) && name in HoleNames(Parse(Combined(run, catalogue), false)) && IsTermHole(name)
    requires forall supplied | supplied in RunValues(run, values) :: !IsTermHole(supplied)
    ensures NamesTerm(run, catalogue, name)
  {
    EntryHoles(run, catalogue, name);
    SuppliedByRun(run, values);
    NamedByPieces(run, catalogue, name);
  }

  lemma TermIsRefused(message: string, supplied: map<string, string>, words: string -> string)
    requires exists name | name in supplied :: IsTermHole(name)
    ensures Fill(message, Some(supplied), words) == None
  {
    if Fill(message, Some(supplied), words).Some? {
      FillAccepted(message, supplied, words);
    }
  }

  // ---- putting texts together ----

  lemma {:induction false} ShownParts(parts: seq<Part>, lo: nat, mid: nat, hi: nat, catalogue: Catalogue, view: View)
    requires lo <= mid <= hi <= |parts|
    ensures Shown(parts, lo, hi, catalogue, view)
         == Both(Shown(parts, lo, mid, catalogue, view), Shown(parts, mid, hi, catalogue, view))
    decreases mid - lo
  {
    if lo < mid {
      ShownParts(parts, lo + 1, mid, hi, catalogue, view);
      var head := ShownChild(parts[lo], lo, catalogue, view);
      var a, b := Shown(parts, lo + 1, mid, catalogue, view), Shown(parts, mid, hi, catalogue, view);
      if head.Some? && a.Some? && b.Some? {
        Regroup(head.value, a.value, b.value);
      }
    } else {
      var b := Shown(parts, mid, hi, catalogue, view);
      assert b.Some? ==> "" + b.value == b.value;
    }
  }

  // Every child of a complete list renders.
  lemma {:induction false} CompleteShows(parts: seq<Part>, lo: nat, hi: nat, catalogue: Catalogue, view: View)
    requires lo <= hi <= |parts| && Complete(parts, catalogue)
    ensures Shown(parts, lo, hi, catalogue, view).Some?
    decreases hi - lo
  {
    if lo < hi {
      CompleteShows(parts, lo + 1, hi, catalogue, view);
      ChildShows(parts, lo, catalogue, view);
    }
  }

  lemma ChildShows(parts: seq<Part>, i: nat, catalogue: Catalogue, view: View)
    requires i < |parts| && Complete(parts, catalogue)
    ensures ShownChild(parts[i], i, catalogue, view).Some?
  {
    if parts[i].Message? {
      ChildSpeaks(parts, i, catalogue, ScreenValues(view.values), view.renamed);
    }
  }

  lemma {:induction false} SameSiblings(parts: seq<Part>, lo: nat, hi: nat, catalogue: Catalogue, final: Catalogue,
                                        view: View)
    requires lo <= hi <= |parts| && SameEntries(parts, lo, hi, catalogue, final)
    requires Known(parts, catalogue) && SameWords(parts, catalogue, final, view.renamed)
    ensures Shown(parts, lo, hi, final, view) == Shown(parts, lo, hi, catalogue, view)
    decreases hi - lo
  {
    if lo < hi {
      SameSiblings(parts, lo + 1, hi, catalogue, final, view);
      if parts[lo].Message? {
        ChildSaysTheSame(parts, lo, catalogue, final, view.renamed);
      }
    }
  }

  lemma {:induction false} LiteralsShow(parts: seq<Part>, lo: nat, hi: nat, catalogue: Catalogue, view: View)
    requires lo <= hi <= |parts| && forall i | lo <= i < hi :: parts[i].Literal?
    ensures Shown(parts, lo, hi, catalogue, view) == Some(LiteralText(parts, lo, hi))
    decreases hi - lo
  {
    if lo < hi {
      LiteralsShow(parts, lo + 1, hi, catalogue, view);
    }
  }

  // A run's children show what the run shows.
  lemma {:induction false} RunShows(parts: seq<Part>, lo: nat, hi: nat, catalogue: Catalogue, view: View)
    requires lo <= hi <= |parts| && Complete(parts, catalogue) && Known(parts[lo..hi], catalogue)
    requires forall i | lo <= i < hi :: !parts[i].Barrier?
    ensures Shown(parts, lo, hi, catalogue, view)
         == Screen(parts[lo..hi], catalogue, ScreenValues(view.values), TermWords(catalogue, view.renamed))
    decreases hi - lo
  {
    if lo < hi {
      var run := parts[lo..hi];
      assert run[0] == parts[lo] && run[1..] == parts[lo + 1..hi];
      assert run[0] in run && parts[lo] in parts;
      RunShows(parts, lo + 1, hi, catalogue, view);
      if parts[lo].Message? {
        ChildSpeaks(parts, lo, catalogue, ScreenValues(view.values), view.renamed);
        MessageOnItsOwn(catalogue[parts[lo].key], ScreenValues(view.values), TermWords(catalogue, view.renamed));
      }
    }
  }

  lemma SoundSlice(parts: seq<Part>, lo: nat, hi: nat, catalogue: Catalogue)
    requires lo <= hi <= |parts| && Sound(parts, catalogue)
    ensures Sound(parts[lo..hi], catalogue)
  {
    assert forall part | part in parts[lo..hi] :: part in parts;
  }

  lemma CompleteSlice(parts: seq<Part>, lo: nat, hi: nat, catalogue: Catalogue)
    requires lo <= hi <= |parts| && Complete(parts, catalogue)
    ensures Complete(parts[lo..hi], catalogue)
  {
    SoundSlice(parts, lo, hi, catalogue);
    forall name | NamesTerm(parts[lo..hi], catalogue, name) ensures NamesTerm(parts, catalogue, name) {
      NamedInSlice(parts, lo, hi, catalogue, name);
    }
  }

  // What stands before, in and behind a run.
  lemma AroundRun(parts: seq<Part>, r: Range, lo: nat, catalogue: Catalogue, view: View)
    returns (a: string, run: string, b: string)
    requires IsFramed(parts, r) && lo <= r.lo && Complete(parts, catalogue)
    ensures Sound(parts[r.lo..r.hi], catalogue)
    ensures Shown(parts, lo, r.lo, catalogue, view) == Some(a)
    ensures Shown(parts, r.hi, |parts|, catalogue, view) == Some(b)
    ensures run == RunText(parts, r, catalogue, ScreenValues(view.values), view.renamed)
    ensures Shown(parts, lo, |parts|, catalogue, view) == Some(a + run + b)
  {
    var values, words := ScreenValues(view.values), TermWords(catalogue, view.renamed);
    CompleteSlice(parts, r.lo, r.hi, catalogue);
    CompleteShows(parts, lo, r.lo, catalogue, view);
    CompleteShows(parts, r.hi, |parts|, catalogue, view);
    a, b := Shown(parts, lo, r.lo, catalogue, view).value, Shown(parts, r.hi, |parts|, catalogue, view).value;
    run := Spoken(ScreenPieces(parts[r.lo..r.hi], catalogue), values, words);
    RunShows(parts, r.lo, r.hi, catalogue, view);
    ScreenBefore(parts[r.lo..r.hi], catalogue, values, words);
    ShownParts(parts, lo, r.lo, |parts|, catalogue, view);
    ShownParts(parts, r.lo, r.hi, |parts|, catalogue, view);
    Regroup(a, run, b);
  }

  // What a run's children show, and what its message would.
  function RunText(parts: seq<Part>, r: Range, catalogue: Catalogue, values: string -> string, renamed: Renames): string
    requires r.lo <= r.hi <= |parts| && Known(parts[r.lo..r.hi], catalogue)
  {
    Spoken(ScreenPieces(parts[r.lo..r.hi], catalogue), values, TermWords(catalogue, renamed))
  }

  function RunFused(parts: seq<Part>, r: Range, catalogue: Catalogue, values: string -> string, renamed: Renames)
    : Option<string>
    requires r.lo <= r.hi <= |parts| && Known(parts[r.lo..r.hi], catalogue)
  {
    Fused(parts[r.lo..r.hi], catalogue, values, TermWords(catalogue, renamed))
  }

  // The rewritten list as its parts: what stands before the first run, the
  // run's message, and the rest.
  lemma RewrittenStep(parts: seq<Part>, ranges: seq<Range>, keys: seq<string>, lo: nat, catalogue: Catalogue,
                      final: Catalogue, view: View, a: string)
    returns (fused: Option<string>, rest: Option<string>)
    requires ranges != [] && Placed(parts, ranges, lo) && |keys| == |ranges|
    requires HoldsEntries(parts, ranges, keys, lo, catalogue, final)
    requires Complete(parts, catalogue) && SameWords(parts, catalogue, final, view.renamed)
    requires Shown(parts, lo, ranges[0].lo, catalogue, view) == Some(a)
    ensures Known(parts[ranges[0].lo..ranges[0].hi], catalogue)
    ensures fused == RunFused(parts, ranges[0], catalogue, MessageTexts(view.values), view.renamed)
    ensures rest == Rewritten(parts, ranges[1..], keys[1..], ranges[0].hi, final, view)
    ensures Rewritten(parts, ranges, keys, lo, final, view)
         == if fused.Some? && rest.Some? then Some(a + (fused.value + rest.value)) else None
  {
    var run := parts[ranges[0].lo..ranges[0].hi];
    SameSiblings(parts, lo, ranges[0].lo, catalogue, final, view);
    CompleteSlice(parts, ranges[0].lo, ranges[0].hi, catalogue);
    SameWordsSlice(parts, ranges[0].lo, ranges[0].hi, catalogue, final, view.renamed);
    RunSaysTheSame(run, catalogue, final, keys[0], MessageTexts(view.values), view.renamed);
    fused := ShownRun(run, keys[0], final, view);
    rest := Rewritten(parts, ranges[1..], keys[1..], ranges[0].hi, final, view);
  }

  // A run holds a value, so it is not all whitespace.
  lemma RunIsNotBlank(run: seq<Part>, catalogue: Catalogue)
    requires Known(run, catalogue) && exists i | 0 <= i < |run| :: run[i].Value?
    ensures !AllBlank(ScreenPieces(run, catalogue))
  {
    var i :| 0 <= i < |run| && run[i].Value?;
    var seen := SeenParts(run);
    assert seen[i] == run[i];
    assert forall part | part in seen :: part.Message? ==> part in run;
    SlotIsThere(seen, i, catalogue);
    var ps := ScreenPieces(run, catalogue);
    var j :| 0 <= j < |ps| && ps[j] == Slot(run[i].expression);
  }

  lemma FramedIsNotBlank(parts: seq<Part>, r: Range, catalogue: Catalogue)
    requires IsFramed(parts, r) && Known(parts[r.lo..r.hi], catalogue)
    ensures !AllBlank(ScreenPieces(parts[r.lo..r.hi], catalogue))
  {
    var run := parts[r.lo..r.hi];
    var i :| r.lo <= i < r.hi && parts[i].Value?;
    assert run[i - r.lo] == parts[i];
    RunIsNotBlank(run, catalogue);
  }

  lemma {:induction false} SlotIsThere(parts: seq<Part>, i: nat, catalogue: Catalogue)
    requires Known(parts, catalogue) && i < |parts| && parts[i].Value?
    ensures Slot(parts[i].expression) in RunPieces(parts, catalogue)
  {
    if i > 0 {
      SlotIsThere(parts[1..], i - 1, catalogue);
    }
  }

  // ---- hidden edges: the texts look alike ----

  lemma ReplaceRun(a: string, run: string, lead: string, tidy: string, trail: string, b: string, after: string)
    requires Alike(run, lead + tidy + trail) && AllSpace(lead) && AllSpace(trail)
    requires lead != "" ==> EndsBlank(a)
    requires trail != "" ==> StartsBlank(b)
    requires Alike(b, after)
    ensures Alike(a + run + b, a + (tidy + after))
  {
    AlikeInside(a, run, lead + tidy + trail, b);
    Reassociate(a, lead, tidy, trail, b);
    LeadVanishes(a, lead, tidy + (trail + b));
    TrailVanishes(a + tidy, trail, b);
    ThenAlike(a + tidy, b, after);
    Regroup(a, tidy, after);
  }

  lemma Reassociate(a: string, lead: string, tidy: string, trail: string, b: string)
    ensures a + (lead + tidy + trail) + b == (a + lead) + (tidy + (trail + b))
    ensures a + (tidy + (trail + b)) == (a + tidy) + (trail + b)
  {
  }

  lemma LeadVanishes(a: string, lead: string, rest: string)
    requires AllSpace(lead) && (lead != "" ==> EndsBlank(a))
    ensures Alike((a + lead) + rest, a + rest)
  {
    if lead == "" {
      assert a + lead == a;
    } else {
      BlankAfter(a, lead);
      AlikeInside("", a + lead, a, rest);
      assert "" + (a + lead) == a + lead && "" + a == a;
    }
  }

  lemma TrailVanishes(front: string, trail: string, b: string)
    requires AllSpace(trail) && (trail != "" ==> StartsBlank(b))
    ensures Alike(front + (trail + b), front + b)
  {
    if trail == "" {
      assert trail + b == b;
    } else {
      BlankBefore(trail, b);
      AlikeInside(front, trail + b, b, "");
      assert front + (trail + b) + "" == front + (trail + b) && front + b + "" == front + b;
    }
  }

  lemma ReplacePieces(ps: seq<Piece>, values: string -> string, words: string -> string, a: string, b: string,
                      after: string)
    requires !AllBlank(ps) && Alike(b, after)
    requires Blank(ps[0]) ==> EndsBlank(a)
    requires Blank(ps[|ps| - 1]) ==> StartsBlank(b)
    ensures Alike(a + Spoken(ps, values, words) + b, a + (Spoken(Tidy(ps), values, words) + after))
  {
    var lead, trail := SpokenTidy(ps, values, words);
    ReplaceRun(a, Spoken(ps, values, words), lead, Spoken(Tidy(ps), values, words), trail, b, after);
  }

  lemma ConcatEnds(x: string, y: string)
    ensures y != "" ==> EndsBlank(x + y) == EndsBlank(y)
    ensures x != "" ==> StartsBlank(x + y) == StartsBlank(x)
  {
  }

  // Where the literals beside a run show whitespace, the text beside it does.
  lemma HiddenEdges(parts: seq<Part>, r: Range, lo: nat, catalogue: Catalogue, view: View)
    requires IsFramed(parts, r) && lo <= LeftStart(parts, r.lo) && Complete(parts, catalogue)
    ensures Shown(parts, lo, r.lo, catalogue, view).Some? && Shown(parts, r.hi, |parts|, catalogue, view).Some?
    ensures EndsBlank(LeftText(parts, r.lo)) ==> EndsBlank(Shown(parts, lo, r.lo, catalogue, view).value)
    ensures StartsBlank(RightText(parts, r.hi)) ==> StartsBlank(Shown(parts, r.hi, |parts|, catalogue, view).value)
  {
    var from, to := LeftStart(parts, r.lo), RightEnd(parts, r.hi);
    CompleteShows(parts, lo, r.lo, catalogue, view);
    CompleteShows(parts, lo, from, catalogue, view);
    CompleteShows(parts, r.hi, |parts|, catalogue, view);
    CompleteShows(parts, to, |parts|, catalogue, view);
    LiteralsShow(parts, from, r.lo, catalogue, view);
    LiteralsShow(parts, r.hi, to, catalogue, view);
    ShownParts(parts, lo, from, r.lo, catalogue, view);
    ShownParts(parts, r.hi, to, |parts|, catalogue, view);
    ConcatEnds(Shown(parts, lo, from, catalogue, view).value, LeftText(parts, r.lo));
    ConcatEnds(RightText(parts, r.hi), Shown(parts, to, |parts|, catalogue, view).value);
  }

  // Every value in the run reads the same on the screen and in a message.
  ghost predicate RunReads(run: seq<Part>, values: string -> Val) {
    forall e | e in Expressions(run) :: values(e).Reads?
  }

  ghost predicate AllRead(parts: seq<Part>, ranges: seq<Range>, values: string -> Val) {
    forall r | r in ranges && r.lo <= r.hi <= |parts| :: RunReads(parts[r.lo..r.hi], values)
  }

  lemma ReadsInMessage(run: seq<Part>, values: string -> Val)
    requires RunReads(run, values)
    ensures RunValues(run, MessageTexts(values)) == RunValues(run, ScreenValues(values))
  {
    BindingsAreNames(Expressions(run), map[]);
    SuppliedSame(Bindings(Expressions(run), map[]), MessageTexts(values), ScreenValues(values));
  }

  lemma {:induction false} SuppliedSame(bindings: seq<Binding>, values: string -> string, others: string -> string)
    requires forall b | b in bindings :: values(b.expression) == others(b.expression)
    ensures Supplied(bindings, values) == Supplied(bindings, others)
  {
    if bindings != [] {
      SuppliedSame(bindings[1..], values, others);
      assert bindings[0] in bindings;
    }
  }

  lemma {:induction false} SafeShowsAlike(parts: seq<Part>, ranges: seq<Range>, keys: seq<string>, lo: nat,
                                          catalogue: Catalogue, final: Catalogue, view: View)
    requires Placed(parts, ranges, lo) && |keys| == |ranges| && lo <= |parts| && Complete(parts, catalogue)
    requires HoldsEntries(parts, ranges, keys, lo, catalogue, final)
    requires SameWords(parts, catalogue, final, view.renamed) && AllRead(parts, ranges, view.values)
    requires AllSafe(parts, ranges, catalogue) && AllHidden(parts, ranges, catalogue)
    ensures ShowsAlike(parts, ranges, keys, lo, catalogue, final, view)
    decreases |ranges|
  {
    if ranges == [] {
      SameSiblings(parts, lo, |parts|, catalogue, final, view);
      CompleteShows(parts, lo, |parts|, catalogue, view);
    } else {
      var r := ranges[0];
      assert r in ranges;
      SafeShowsAlike(parts, ranges[1..], keys[1..], r.hi, catalogue, final, view);
      var a, run, b := AroundRun(parts, r, lo, catalogue, view);
      var fused, rest := RewrittenStep(parts, ranges, keys, lo, catalogue, final, view, a);
      HiddenEdges(parts, r, lo, catalogue, view);
      SafeRun(parts, r, catalogue, view, a, b, rest.value);
    }
  }

  lemma SafeRun(parts: seq<Part>, r: Range, catalogue: Catalogue, view: View, a: string, b: string, after: string)
    requires IsFramed(parts, r) && Sound(parts[r.lo..r.hi], catalogue) && Alike(b, after)
    requires SafeToCombine(parts[r.lo..r.hi], catalogue) && EdgesHidden(parts, r, catalogue)
    requires RunReads(parts[r.lo..r.hi], view.values)
    requires EndsBlank(LeftText(parts, r.lo)) ==> EndsBlank(a)
    requires StartsBlank(RightText(parts, r.hi)) ==> StartsBlank(b)
    ensures
      var run := RunText(parts, r, catalogue, ScreenValues(view.values), view.renamed);
      var fused := RunFused(parts, r, catalogue, MessageTexts(view.values), view.renamed);
      fused.Some? && Alike(a + run + b, a + (fused.value + after))
  {
    var ps := ScreenPieces(parts[r.lo..r.hi], catalogue);
    RunFusedIs(parts, r, catalogue, view);
    FramedIsNotBlank(parts, r, catalogue);
    HiddenExactly(parts, r, catalogue, ps, LeftText(parts, r.lo), RightText(parts, r.hi));
    ReplacePieces(ps, ScreenValues(view.values), TermWords(catalogue, view.renamed), a, b, after);
  }

  // The message of a safe run, whose values read the same in it, shows the
  // run's pieces tidied.
  lemma RunFusedIs(parts: seq<Part>, r: Range, catalogue: Catalogue, view: View)
    requires r.lo <= r.hi <= |parts| && Sound(parts[r.lo..r.hi], catalogue)
    requires SafeToCombine(parts[r.lo..r.hi], catalogue) && RunReads(parts[r.lo..r.hi], view.values)
    ensures
      var ps := ScreenPieces(parts[r.lo..r.hi], catalogue);
      RunFused(parts, r, catalogue, MessageTexts(view.values), view.renamed)
      == Some(Spoken(Tidy(ps), ScreenValues(view.values), TermWords(catalogue, view.renamed)))
  {
    ReadsInMessage(parts[r.lo..r.hi], view.values);
    SafeReadsTheSame(parts[r.lo..r.hi], catalogue, ScreenValues(view.values), TermWords(catalogue, view.renamed));
  }

  // ---- an unsafe run: more ink, or an error ----

  function AllSilent(e: string): Val { Reads("") }

  function AllMarked(e: string): Val { Reads("x") }

  function SilentBox(k: nat): string { "" }

  function MarkedBox(k: nat): string { "x" }

  // Every term renamed to one letter.
  const RENAMED: Renames := map term | term in TERMS :: Label("x", "x")

  const SILENCE := View(AllSilent, RENAMED, SilentBox)

  // The same with every value and box one letter too.
  const MARKS := View(AllMarked, RENAMED, MarkedBox)

  lemma RenamedToOne(catalogue: Catalogue, name: string)
    requires IsTermHole(name)
    ensures WordFor(catalogue, RENAMED, name) == Some(if TermHoleOf(name).value.running then "x" else "X")
  {
    TermEndsInLetter(name);
    AmongIsIn(TERMS, TermHoleOf(name).value.term);
    OneLetter();
  }

  lemma OneLetter()
    ensures InRunningText("x") == "x" && Capitalised("x") == "X"
  {
    var rest := Split("", ' ');
    assert "x"[1..] == "" && rest == [""] && rest[1..] == [] && ['x'] + "" == "x";
    assert Split("x", ' ') == [['x'] + rest[0]] + rest[1..];
    assert LowerAll("") == "" && Lowered("x") == "x";
    assert ["x"][1..] == [] && Each(["x"], Lowered) == ["x"];
  }

  lemma OneLetterWords(catalogue: Catalogue)
    ensures Brief(TermWords(catalogue, RENAMED))
  {
    forall name ensures |TermWords(catalogue, RENAMED)(name)| == 1 && !IsSpace(TermWords(catalogue, RENAMED)(name)[0]) {
      if IsTermHole(name) {
        RenamedToOne(catalogue, name);
      }
    }
  }

  // Renamed, the terms read the same whatever became of their entries.
  lemma RenamedReadTheSame(parts: seq<Part>, catalogue: Catalogue, final: Catalogue)
    requires Known(parts, catalogue)
    ensures SameWords(parts, catalogue, final, RENAMED)
  {
    forall name | NamesTerm(parts, catalogue, name)
      ensures WordFor(catalogue, RENAMED, name).Some?
      ensures WordFor(final, RENAMED, name) == WordFor(catalogue, RENAMED, name)
    {
      RenamedToOne(catalogue, name);
      RenamedToOne(final, name);
    }
  }

  lemma OneLetterIsRenaming()
    ensures IsRenaming(RENAMED)
  {
    forall term | term in TERMS ensures IsTerm(term) {
      AmongIsIn(TERMS, term);
    }
    RenamingOf(TERMS, RENAMED);
  }

  lemma RenamingOf(terms: seq<string>, renamed: Renames)
    requires renamed.Keys == (set term | term in terms) && forall term | term in terms :: IsTerm(term)
    requires forall term | term in renamed :: renamed[term] == Label("x", "x")
    ensures IsRenaming(renamed)
  {
  }

  lemma AllSafeTail(parts: seq<Part>, ranges: seq<Range>, catalogue: Catalogue)
    requires Known(parts, catalogue) && ranges != [] && IsFramed(parts, ranges[0])
    ensures AllSafe(parts, ranges, catalogue) <==>
              SafeToCombine(parts[ranges[0].lo..ranges[0].hi], catalogue) && AllSafe(parts, ranges[1..], catalogue)
  {
    assert ranges == [ranges[0]] + ranges[1..];
  }

  lemma {:induction false} UnsafeInks(parts: seq<Part>, ranges: seq<Range>, keys: seq<string>, lo: nat,
                                      catalogue: Catalogue, final: Catalogue, view: View)
    requires Placed(parts, ranges, lo) && |keys| == |ranges| && lo <= |parts| && Complete(parts, catalogue)
    requires HoldsEntries(parts, ranges, keys, lo, catalogue, final)
    requires SameWords(parts, catalogue, final, view.renamed) && Brief(TermWords(catalogue, view.renamed))
    requires forall e :: view.values(e) == Reads("")
    ensures Shown(parts, lo, |parts|, catalogue, view).Some?
    ensures
      var before := Shown(parts, lo, |parts|, catalogue, view).value;
      var after := Rewritten(parts, ranges, keys, lo, final, view);
      && (after.Some? ==> |Ink(after.value)| >= |Ink(before)|)
      && (!AllSafe(parts, ranges, catalogue) ==> after == None || |Ink(after.value)| > |Ink(before)|)
    decreases |ranges|
  {
    if ranges == [] {
      SameSiblings(parts, lo, |parts|, catalogue, final, view);
      CompleteShows(parts, lo, |parts|, catalogue, view);
    } else {
      var r := ranges[0];
      UnsafeInks(parts, ranges[1..], keys[1..], r.hi, catalogue, final, view);
      var a, run, b := AroundRun(parts, r, lo, catalogue, view);
      var fused, rest := RewrittenStep(parts, ranges, keys, lo, catalogue, final, view, a);
      AllSafeTail(parts, ranges, catalogue);
      UnsafeRunInks(parts, r, catalogue, view);
      InkOfThree(a, run, b);
      if fused.Some? && rest.Some? {
        InkOfThree(a, fused.value, rest.value);
      }
    }
  }

  lemma UnsafeRunInks(parts: seq<Part>, r: Range, catalogue: Catalogue, view: View)
    requires IsFramed(parts, r) && Sound(parts[r.lo..r.hi], catalogue)
    requires Brief(TermWords(catalogue, view.renamed)) && forall e :: view.values(e) == Reads("")
    ensures
      var run := RunText(parts, r, catalogue, ScreenValues(view.values), view.renamed);
      var fused := RunFused(parts, r, catalogue, MessageTexts(view.values), view.renamed);
      && (fused.Some? ==> |Ink(fused.value)| >= |Ink(run)|)
      && (!SafeToCombine(parts[r.lo..r.hi], catalogue) ==> fused == None || |Ink(fused.value)| > |Ink(run)|)
  {
    ReadsInMessage(parts[r.lo..r.hi], view.values);
    UnsafeShowsMore(parts[r.lo..r.hi], catalogue, ScreenValues(view.values), TermWords(catalogue, view.renamed));
  }

  lemma InkOfThree(a: string, b: string, c: string)
    ensures |Ink(a + b + c)| == |Ink(a)| + |Ink(b)| + |Ink(c)|
    ensures a + (b + c) == a + b + c
  {
    Regroup(a, b, c);
    InkConcat(a + b, c);
    InkConcat(a, b);
  }

  // ---- a visible edge: a gap less ----

  lemma GapsOfReplaced(a: string, run: string, lead: string, tidy: string, trail: string, b: string, after: string)
    requires Alike(run, lead + tidy + trail) && AllSpace(lead) && AllSpace(trail)
    requires tidy != "" && !StartsBlank(tidy) && !EndsBlank(tidy)
    requires Gaps(after) <= Gaps(b)
    ensures Gaps(a + (tidy + after)) <= Gaps(a + run + b)
    ensures (lead != "" && !EndsBlank(a)) || (trail != "" && !StartsBlank(b)) || Gaps(after) < Gaps(b) ==>
              Gaps(a + (tidy + after)) < Gaps(a + run + b)
  {
    AlikeInside(a, run, lead + tidy + trail, b);
    assert a + (lead + tidy + trail) + b == (a + lead) + (tidy + (trail + b));
    ConcatEnds(a, lead);
    ConcatEnds(tidy, trail + b);
    ConcatEnds(tidy, after);
    GapsConcat(a + lead, tidy + (trail + b));
    GapsConcat(a, lead);
    GapsConcat(tidy, trail + b);
    GapsConcat(trail, b);
    GapsConcat(a, tidy + after);
    GapsConcat(tidy, after);
    GapsOfBlank(lead);
    GapsOfBlank(trail);
  }

  lemma {:induction false} SkipEndEnds(ps: seq<Piece>)
    ensures SkipEnd(ps) != [] ==> !Blank(SkipEnd(ps)[|SkipEnd(ps)| - 1])
    ensures SkipEnd(ps) == [] <==> AllBlank(ps)
  {
    if ps != [] && Blank(ps[|ps| - 1]) {
      SkipEndEnds(ps[..|ps| - 1]);
    }
  }

  // Tidied pieces begin and end with ink.
  lemma TidyEnds(ps: seq<Piece>)
    requires !AllBlank(ps)
    ensures var tidy := Tidy(ps); tidy != [] && !Blank(tidy[0]) && !Blank(tidy[|tidy| - 1])
  {
    var started := SkipStart(Squeeze(ps));
    SqueezeKeepsBlank(ps);
    SkipStartIsSuffix(Squeeze(ps));
    SkipEndEnds(started);
  }

  lemma MarkedPiece(p: Piece, values: string -> string, words: string -> string)
    requires !Blank(p) && Brief(values) && Brief(words)
    ensures var s := SpokenPiece(p, values, words); |s| == 1 && !IsSpace(s[0])
  {
  }

  lemma MarkedTidy(ps: seq<Piece>, values: string -> string, words: string -> string)
    requires !AllBlank(ps) && Brief(values) && Brief(words)
    ensures var s := Spoken(Tidy(ps), values, words); s != "" && !StartsBlank(s) && !EndsBlank(s)
  {
    var tidy := Tidy(ps);
    TidyEnds(ps);
    MarkedPiece(tidy[0], values, words);
    MarkedPiece(tidy[|tidy| - 1], values, words);
    var front, last := tidy[..|tidy| - 1], tidy[|tidy| - 1];
    assert tidy == front + [last] && [last][1..] == [];
    SpokenConcat(front, [last], values, words);
    ConcatEnds(Spoken(front, values, words), SpokenPiece(last, values, words));
  }

  // With everything marked, the text beside a run shows whitespace only where
  // the literals beside it do.
  lemma MarkedLeft(parts: seq<Part>, r: Range, lo: nat, catalogue: Catalogue)
    requires IsFramed(parts, r) && lo <= LeftStart(parts, r.lo) && Complete(parts, catalogue)
    ensures Shown(parts, lo, r.lo, catalogue, MARKS).Some?
    ensures EndsBlank(Shown(parts, lo, r.lo, catalogue, MARKS).value) ==> EndsBlank(LeftText(parts, r.lo))
  {
    var from := LeftStart(parts, r.lo);
    CompleteShows(parts, lo, r.lo, catalogue, MARKS);
    CompleteShows(parts, lo, from, catalogue, MARKS);
    LiteralsShow(parts, from, r.lo, catalogue, MARKS);
    ShownParts(parts, lo, from, r.lo, catalogue, MARKS);
    var x := Shown(parts, lo, from, catalogue, MARKS).value;
    ConcatEnds(x, LeftText(parts, r.lo));
    if LeftText(parts, r.lo) == "" {
      assert x + "" == x;
      if lo < from {
        MarkedTo(parts, lo, from, catalogue);
      }
    }
  }

  // Up to a barrier the text ends with the barrier's mark.
  lemma MarkedTo(parts: seq<Part>, lo: nat, from: nat, catalogue: Catalogue)
    requires lo < from <= |parts| && parts[from - 1].Barrier? && Complete(parts, catalogue)
    ensures Shown(parts, lo, from, catalogue, MARKS).Some? && !EndsBlank(Shown(parts, lo, from, catalogue, MARKS).value)
  {
    CompleteShows(parts, lo, from - 1, catalogue, MARKS);
    ShownParts(parts, lo, from - 1, from, catalogue, MARKS);
    OneShown(parts, from - 1, catalogue);
    ConcatEnds(Shown(parts, lo, from - 1, catalogue, MARKS).value, "x");
  }

  lemma OneShown(parts: seq<Part>, k: nat, catalogue: Catalogue)
    requires k < |parts| && parts[k].Barrier?
    ensures Shown(parts, k, k + 1, catalogue, MARKS) == Some("x")
  {
    assert ShownChild(parts[k], k, catalogue, MARKS) == Some("x");
    assert Shown(parts, k + 1, k + 1, catalogue, MARKS) == Some("");
    assert "x" + "" == "x";
  }

  lemma MarkedRight(parts: seq<Part>, r: Range, catalogue: Catalogue)
    requires IsFramed(parts, r) && Complete(parts, catalogue)
    ensures Shown(parts, r.hi, |parts|, catalogue, MARKS).Some?
    ensures StartsBlank(Shown(parts, r.hi, |parts|, catalogue, MARKS).value) ==> StartsBlank(RightText(parts, r.hi))
  {
    var to := RightEnd(parts, r.hi);
    CompleteShows(parts, r.hi, |parts|, catalogue, MARKS);
    CompleteShows(parts, to, |parts|, catalogue, MARKS);
    LiteralsShow(parts, r.hi, to, catalogue, MARKS);
    ShownParts(parts, r.hi, to, |parts|, catalogue, MARKS);
    MarkedFrom(parts, to, catalogue);
    var z := Shown(parts, to, |parts|, catalogue, MARKS).value;
    ConcatEnds(RightText(parts, r.hi), z);
    assert RightText(parts, r.hi) == "" ==> RightText(parts, r.hi) + z == z;
  }

  lemma MarkedFrom(parts: seq<Part>, k: nat, catalogue: Catalogue)
    requires k <= |parts| && (k == |parts| || parts[k].Barrier?)
    requires Shown(parts, k, |parts|, catalogue, MARKS).Some?
    ensures !StartsBlank(Shown(parts, k, |parts|, catalogue, MARKS).value)
  {
    if k < |parts| {
      ShownParts(parts, k, k + 1, |parts|, catalogue, MARKS);
      OneShown(parts, k, catalogue);
      ConcatEnds("x", Shown(parts, k + 1, |parts|, catalogue, MARKS).value);
    }
  }

  lemma AllHiddenTail(parts: seq<Part>, ranges: seq<Range>, catalogue: Catalogue)
    requires Known(parts, catalogue) && ranges != [] && IsFramed(parts, ranges[0])
    ensures Known(parts[ranges[0].lo..ranges[0].hi], catalogue)
    ensures AllHidden(parts, ranges, catalogue) <==>
              EdgesHidden(parts, ranges[0], catalogue) && AllHidden(parts, ranges[1..], catalogue)
  {
    assert ranges == [ranges[0]] + ranges[1..];
    assert forall part | part in parts[ranges[0].lo..ranges[0].hi] :: part in parts;
  }

  lemma MarkedPieces(ps: seq<Piece>, values: string -> string, words: string -> string, a: string, b: string,
                     after: string)
    requires !AllBlank(ps) && Gaps(after) <= Gaps(b) && Brief(values) && Brief(words)
    ensures
      var before := Gaps(a + Spoken(ps, values, words) + b);
      var replaced := Gaps(a + (Spoken(Tidy(ps), values, words) + after));
      && replaced <= before
      && ((Blank(ps[0]) && !EndsBlank(a)) || (Blank(ps[|ps| - 1]) && !StartsBlank(b)) || Gaps(after) < Gaps(b) ==>
            replaced < before)
  {
    var lead, trail := SpokenTidy(ps, values, words);
    MarkedTidy(ps, values, words);
    GapsOfReplaced(a, Spoken(ps, values, words), lead, Spoken(Tidy(ps), values, words), trail, b, after);
  }

  // With everything marked and the pieces' neighbours ending as they do.
  lemma VisiblePieces(ps: seq<Piece>, values: string -> string, words: string -> string, left: string, right: string,
                      a: string, b: string, after: string)
    requires !AllBlank(ps) && Gaps(after) <= Gaps(b) && Brief(values) && Brief(words)
    requires (EndsBlank(a) ==> EndsBlank(left)) && (StartsBlank(b) ==> StartsBlank(right))
    ensures
      var before := Gaps(a + Spoken(ps, values, words) + b);
      var replaced := Gaps(a + (Spoken(Tidy(ps), values, words) + after));
      var hidden := (Blank(ps[0]) ==> EndsBlank(left)) && (Blank(ps[|ps| - 1]) ==> StartsBlank(right));
      replaced <= before && (!hidden || Gaps(after) < Gaps(b) ==> replaced < before)
  {
    MarkedPieces(ps, values, words, a, b, after);
  }

  lemma VisibleRun(parts: seq<Part>, r: Range, catalogue: Catalogue, view: View, a: string, b: string, after: string,
                   run: string, fused: Option<string>)
    requires IsFramed(parts, r) && Sound(parts[r.lo..r.hi], catalogue)
    requires SafeToCombine(parts[r.lo..r.hi], catalogue) && Gaps(after) <= Gaps(b)
    requires RunReads(parts[r.lo..r.hi], view.values)
    requires Brief(TermWords(catalogue, view.renamed)) && Brief(ScreenValues(view.values))
    requires EndsBlank(a) ==> EndsBlank(LeftText(parts, r.lo))
    requires StartsBlank(b) ==> StartsBlank(RightText(parts, r.hi))
    requires run == RunText(parts, r, catalogue, ScreenValues(view.values), view.renamed)
    requires fused == RunFused(parts, r, catalogue, MessageTexts(view.values), view.renamed)
    ensures fused.Some? && Gaps(a + (fused.value + after)) <= Gaps(a + run + b)
    ensures !EdgesHidden(parts, r, catalogue) || Gaps(after) < Gaps(b) ==>
              Gaps(a + (fused.value + after)) < Gaps(a + run + b)
  {
    var ps, left, right := ScreenPieces(parts[r.lo..r.hi], catalogue), LeftText(parts, r.lo), RightText(parts, r.hi);
    RunFusedIs(parts, r, catalogue, view);
    FramedIsNotBlank(parts, r, catalogue);
    HiddenExactly(parts, r, catalogue, ps, left, right);
    VisiblePieces(ps, ScreenValues(view.values), TermWords(catalogue, view.renamed), left, right, a, b, after);
  }

  lemma OneLetterValues(values: string -> Val)
    requires forall e :: values(e) == Reads("x")
    ensures Brief(ScreenValues(values)) && forall run :: RunReads(run, values)
  {
  }

  lemma HiddenExactly(parts: seq<Part>, r: Range, catalogue: Catalogue, ps: seq<Piece>, left: string, right: string)
    requires IsFramed(parts, r) && Known(parts[r.lo..r.hi], catalogue)
    requires ps == ScreenPieces(parts[r.lo..r.hi], catalogue) && ps != []
    requires left == LeftText(parts, r.lo) && right == RightText(parts, r.hi)
    ensures EdgesHidden(parts, r, catalogue) <==>
              (Blank(ps[0]) ==> EndsBlank(left)) && (Blank(ps[|ps| - 1]) ==> StartsBlank(right))
  {
  }

  lemma {:induction false} VisibleGaps(parts: seq<Part>, ranges: seq<Range>, keys: seq<string>, lo: nat,
                                       catalogue: Catalogue, final: Catalogue)
    requires Placed(parts, ranges, lo) && |keys| == |ranges| && lo <= |parts| && Complete(parts, catalogue)
    requires HoldsEntries(parts, ranges, keys, lo, catalogue, final) && AllSafe(parts, ranges, catalogue)
    ensures Shown(parts, lo, |parts|, catalogue, MARKS).Some? && Rewritten(parts, ranges, keys, lo, final, MARKS).Some?
    ensures
      var before := Shown(parts, lo, |parts|, catalogue, MARKS).value;
      var after := Rewritten(parts, ranges, keys, lo, final, MARKS).value;
      Gaps(after) <= Gaps(before) && (!AllHidden(parts, ranges, catalogue) ==> Gaps(after) < Gaps(before))
    decreases |ranges|
  {
    RenamedReadTheSame(parts, catalogue, final);
    if ranges == [] {
      SameSiblings(parts, lo, |parts|, catalogue, final, MARKS);
      CompleteShows(parts, lo, |parts|, catalogue, MARKS);
    } else {
      var r := ranges[0];
      AllSafeTail(parts, ranges, catalogue);
      AllHiddenTail(parts, ranges, catalogue);
      VisibleGaps(parts, ranges[1..], keys[1..], r.hi, catalogue, final);
      var a, run, b := AroundRun(parts, r, lo, catalogue, MARKS);
      var fused, rest := RewrittenStep(parts, ranges, keys, lo, catalogue, final, MARKS, a);
      MarkedLeft(parts, r, lo, catalogue);
      MarkedRight(parts, r, catalogue);
      OneLetterWords(catalogue);
      OneLetterValues(AllMarked);
      VisibleRun(parts, r, catalogue, MARKS, a, b, rest.value, run, fused);
    }
  }

  // ---- a term without its entry ----

  // Nothing renamed.
  const PLAIN := View(AllSilent, map[], SilentBox)

  // The child names a term that has no entry any more.
  ghost predicate Loses(part: Part, catalogue: Catalogue, final: Catalogue, name: string) {
    && part.Message? && part.key in catalogue && IsTermHole(name)
    && Hole(name) in Parse(catalogue[part.key], false) && TermKey(TermHoleOf(name).value) !in final
  }

  lemma LostWord(part: Part, catalogue: Catalogue, final: Catalogue, name: string)
    requires Loses(part, catalogue, final, name)
    requires part.key in final && final[part.key] == catalogue[part.key]
    ensures Translate(final, part.key, None, map[]) == None
  {
    assert name in HoleNames(Parse(final[part.key], false));
  }

  // A term a child of the run names is one its pieces hold.
  lemma {:induction false} LostIsPiece(run: seq<Part>, k: nat, catalogue: Catalogue, final: Catalogue, name: string)
    requires Known(run, catalogue) && k < |run| && Loses(run[k], catalogue, final, name)
    ensures Term(name) in RunPieces(run, catalogue)
  {
    if k > 0 {
      LostIsPiece(run[1..], k - 1, catalogue, final, name);
    } else {
      NamedByPart(run[0], catalogue, name);
    }
  }

  lemma LostInRun(run: seq<Part>, k: nat, catalogue: Catalogue, final: Catalogue, key: string, name: string, view: View)
    requires Sound(run, catalogue) && SafeToCombine(run, catalogue)
    requires k < |run| && Loses(run[k], catalogue, final, name)
    requires view.renamed == map[] && key in final && final[key] == Combined(run, catalogue)
    ensures ShownRun(run, key, final, view) == None
  {
    var names, tidy := RunNames(run), Tidy(RunPieces(run, catalogue));
    LostIsPiece(run, k, catalogue, final, name);
    SafeHoles(run, catalogue);
    TidyKeeps(RunPieces(run, catalogue));
    HolesOfTokens(tidy, names);
    assert name in HoleNames(Parse(final[key], false));
  }

  lemma {:induction false} LostSibling(parts: seq<Part>, lo: nat, hi: nat, i: nat, catalogue: Catalogue,
                                       final: Catalogue, name: string)
    requires lo <= i < hi <= |parts| && SameEntries(parts, lo, hi, catalogue, final)
    requires Loses(parts[i], catalogue, final, name)
    ensures Shown(parts, lo, hi, final, PLAIN) == None
    decreases i - lo
  {
    if lo == i {
      LostWord(parts[i], catalogue, final, name);
    } else {
      LostSibling(parts, lo + 1, hi, i, catalogue, final, name);
    }
  }

  lemma ChildOfRun(parts: seq<Part>, run: seq<Part>, r: Range, i: nat, catalogue: Catalogue)
    requires r.lo <= i < r.hi <= |parts| && run == parts[r.lo..r.hi] && Sound(parts, catalogue)
    ensures Sound(run, catalogue) && i - r.lo < |run| && run[i - r.lo] == parts[i]
  {
    SoundSlice(parts, r.lo, r.hi, catalogue);
    SlicePoint(parts, r.lo, r.hi, i);
  }

  lemma SlicePoint<T>(s: seq<T>, lo: nat, hi: nat, i: nat)
    requires lo <= i < hi <= |s|
    ensures s[lo..hi][i - lo] == s[i]
  {
  }

  lemma LostChild(run: seq<Part>, k: nat, part: Part, catalogue: Catalogue, final: Catalogue, key: string, name: string,
                  view: View)
    requires k < |run| && run[k] == part && Loses(part, catalogue, final, name)
    requires Sound(run, catalogue) && SafeToCombine(run, catalogue)
    requires view.renamed == map[] && key in final && final[key] == Combined(run, catalogue)
    ensures ShownRun(run, key, final, view) == None
  {
    LostInRun(run, k, catalogue, final, key, name, view);
  }

  // Whichever child of a safe list names a term that has lost its entry, the
  // rewritten list throws where the term is not renamed.
  lemma {:induction false} LostTermThrows(parts: seq<Part>, ranges: seq<Range>, keys: seq<string>, lo: nat,
                                          catalogue: Catalogue, final: Catalogue, i: nat, name: string)
    requires Placed(parts, ranges, lo) && |keys| == |ranges| && lo <= i && Sound(parts, catalogue)
    requires HoldsEntries(parts, ranges, keys, lo, catalogue, final) && AllSafe(parts, ranges, catalogue)
    requires i < |parts| && Loses(parts[i], catalogue, final, name)
    ensures Rewritten(parts, ranges, keys, lo, final, PLAIN) == None
    decreases |ranges|
  {
    if ranges == [] {
      LostSibling(parts, lo, |parts|, i, catalogue, final, name);
    } else {
      var r := ranges[0];
      AllSafeTail(parts, ranges, catalogue);
      if i < r.lo {
        LostSibling(parts, lo, r.lo, i, catalogue, final, name);
      } else if i < r.hi {
        ChildOfRun(parts, parts[r.lo..r.hi], r, i, catalogue);
        LostChild(parts[r.lo..r.hi], i - r.lo, parts[i], catalogue, final, keys[0], name, PLAIN);
      } else {
        LostTermThrows(parts, ranges[1..], keys[1..], r.hi, catalogue, final, i, name);
      }
    }
  }

  // ---- a value that JSX leaves out ----

  lemma PieceInks(p: Piece, values: string -> Val, words: string -> string)
    ensures
      var shown := |Ink(SpokenPiece(p, ScreenValues(values), words))|;
      var said := |Ink(SpokenPiece(p, MessageTexts(values), words))|;
      shown <= said && (p.Slot? && !values(p.expression).Reads? ==> shown < said)
  {
    if p.Slot? {
      SpelledInks();
    }
  }

  lemma SpelledInks()
    ensures |Ink("true")| > 0 && |Ink("false")| > 0 && |Ink("null")| > 0 && |Ink("undefined")| > 0
  {
  }

  // A message spells what JSX leaves out.
  lemma {:induction false} SpelledOut(ps: seq<Piece>, values: string -> Val, words: string -> string)
    ensures
      var shown := |Ink(Spoken(ps, ScreenValues(values), words))|;
      var said := |Ink(Spoken(ps, MessageTexts(values), words))|;
      shown <= said && ((exists e :: Slot(e) in ps && !values(e).Reads?) ==> shown < said)
  {
    if ps != [] {
      var screen, message := ScreenValues(values), MessageTexts(values);
      SpelledOut(ps[1..], values, words);
      PieceInks(ps[0], values, words);
      InkConcat(SpokenPiece(ps[0], screen, words), Spoken(ps[1..], screen, words));
      InkConcat(SpokenPiece(ps[0], message, words), Spoken(ps[1..], message, words));
    }
  }

  lemma {:induction false} SlotsOf(parts: seq<Part>, catalogue: Catalogue, e: string)
    requires Known(parts, catalogue)
    ensures Value(e) in parts ==> Slot(e) in RunPieces(parts, catalogue)
  {
    if parts != [] {
      SlotsOf(parts[1..], catalogue, e);
    }
  }

  lemma RunSpellsOut(parts: seq<Part>, r: Range, catalogue: Catalogue, view: View)
    requires IsFramed(parts, r) && Sound(parts[r.lo..r.hi], catalogue) && SafeToCombine(parts[r.lo..r.hi], catalogue)
    ensures
      var run := RunText(parts, r, catalogue, ScreenValues(view.values), view.renamed);
      var fused := RunFused(parts, r, catalogue, MessageTexts(view.values), view.renamed);
      && fused.Some? && |Ink(fused.value)| >= |Ink(run)|
      && (!RunReads(parts[r.lo..r.hi], view.values) ==> |Ink(fused.value)| > |Ink(run)|)
  {
    var run := parts[r.lo..r.hi];
    var ps, words := ScreenPieces(run, catalogue), TermWords(catalogue, view.renamed);
    SafeReadsTheSame(run, catalogue, MessageTexts(view.values), words);
    TidyKeepsInk(ps, MessageTexts(view.values), words);
    SpelledOut(ps, view.values, words);
    if !RunReads(run, view.values) {
      var e :| e in Expressions(run) && !view.values(e).Reads?;
      SlotOnScreen(run, catalogue, e);
    }
  }

  lemma SlotOnScreen(run: seq<Part>, catalogue: Catalogue, e: string)
    requires Known(run, catalogue) && e in Expressions(run)
    ensures Slot(e) in ScreenPieces(run, catalogue)
  {
    var k :| 0 <= k < |run| && run[k] == Value(e);
    assert SeenParts(run)[k] == Value(e);
    assert forall part | part in SeenParts(run) :: part.Message? ==> part in run;
    SlotsOf(SeenParts(run), catalogue, e);
  }

  lemma AllReadTail(parts: seq<Part>, ranges: seq<Range>, values: string -> Val)
    requires ranges != [] && ranges[0].lo <= ranges[0].hi <= |parts|
    ensures AllRead(parts, ranges, values) <==>
              RunReads(parts[ranges[0].lo..ranges[0].hi], values) && AllRead(parts, ranges[1..], values)
  {
    assert ranges == [ranges[0]] + ranges[1..];
  }

  // A safe list shows more once a run's message spells a value JSX left out.
  lemma {:induction false} SpellsOut(parts: seq<Part>, ranges: seq<Range>, keys: seq<string>, lo: nat,
                                     catalogue: Catalogue, final: Catalogue, view: View)
    requires Placed(parts, ranges, lo) && |keys| == |ranges| && lo <= |parts| && Complete(parts, catalogue)
    requires HoldsEntries(parts, ranges, keys, lo, catalogue, final) && AllSafe(parts, ranges, catalogue)
    requires SameWords(parts, catalogue, final, view.renamed)
    ensures Shown(parts, lo, |parts|, catalogue, view).Some? && Rewritten(parts, ranges, keys, lo, final, view).Some?
    ensures
      var before := Shown(parts, lo, |parts|, catalogue, view).value;
      var after := Rewritten(parts, ranges, keys, lo, final, view).value;
      |Ink(after)| >= |Ink(before)| && (!AllRead(parts, ranges, view.values) ==> |Ink(after)| > |Ink(before)|)
    decreases |ranges|
  {
    if ranges == [] {
      SameSiblings(parts, lo, |parts|, catalogue, final, view);
      CompleteShows(parts, lo, |parts|, catalogue, view);
    } else {
      var r := ranges[0];
      AllSafeTail(parts, ranges, catalogue);
      AllReadTail(parts, ranges, view.values);
      SpellsOut(parts, ranges[1..], keys[1..], r.hi, catalogue, final, view);
      var a, run, b := AroundRun(parts, r, lo, catalogue, view);
      var fused, rest := RewrittenStep(parts, ranges, keys, lo, catalogue, final, view, a);
      RunSpellsOut(parts, r, catalogue, view);
      InkOfThree(a, run, b);
      InkOfThree(a, fused.value, rest.value);
    }
  }

  // ---- the law ----

  lemma NotAlways(parts: seq<Part>, ranges: seq<Range>, keys: seq<string>, catalogue: Catalogue, final: Catalogue,
                  view: View)
    requires Placed(parts, ranges, 0) && |keys| == |ranges| && IsRender(view) && Readable(view)
    requires !ShowsAlike(parts, ranges, keys, 0, catalogue, final, view)
    ensures !AlwaysAlike(parts, ranges, keys, catalogue, final)
  {
  }

  // For every list of children that renders: rewritten, and read with a
  // catalogue that holds the entries of its runs and other children, it reads
  // the same, whitespace collapsed, for all values, renamed terms and other
  // children, if and only if every run in it is safe to combine and shows no
  // whitespace at an end that has none beside it, and every term it names still
  // has its own entry.
  lemma SameListExactly(parts: seq<Part>, ranges: seq<Range>, keys: seq<string>, catalogue: Catalogue, final: Catalogue)
    requires Placed(parts, ranges, 0) && |keys| == |ranges| && Complete(parts, catalogue)
    requires HoldsEntries(parts, ranges, keys, 0, catalogue, final) && TermsStand(catalogue, final)
    ensures
      && AllSafe(parts, ranges, catalogue) && AllHidden(parts, ranges, catalogue)
      && TermsKnown(parts, catalogue, final)
      <==> AlwaysAlike(parts, ranges, keys, catalogue, final)
  {
    OneLetterIsRenaming();
    if !AllSafe(parts, ranges, catalogue) {
      RenamedReadTheSame(parts, catalogue, final);
      OneLetterWords(catalogue);
      UnsafeInks(parts, ranges, keys, 0, catalogue, final, SILENCE);
      DifferentInk(parts, ranges, keys, catalogue, final, SILENCE);
      NotAlways(parts, ranges, keys, catalogue, final, SILENCE);
    } else if !AllHidden(parts, ranges, catalogue) {
      VisibleGaps(parts, ranges, keys, 0, catalogue, final);
      NotAlways(parts, ranges, keys, catalogue, final, MARKS);
    } else if !TermsKnown(parts, catalogue, final) {
      LostTermShows(parts, ranges, keys, catalogue, final);
    } else {
      forall view | IsRender(view) && Readable(view)
        ensures ShowsAlike(parts, ranges, keys, 0, catalogue, final, view)
      {
        WordsKept(parts, catalogue, final, view.renamed);
        SafeShowsAlike(parts, ranges, keys, 0, catalogue, final, view);
      }
    }
  }

  lemma LostTermShows(parts: seq<Part>, ranges: seq<Range>, keys: seq<string>, catalogue: Catalogue, final: Catalogue)
    requires Placed(parts, ranges, 0) && |keys| == |ranges| && Complete(parts, catalogue)
    requires HoldsEntries(parts, ranges, keys, 0, catalogue, final) && AllSafe(parts, ranges, catalogue)
    requires !TermsKnown(parts, catalogue, final)
    ensures !AlwaysAlike(parts, ranges, keys, catalogue, final)
  {
    var name :| NamesTerm(parts, catalogue, name) && TermKey(TermHoleOf(name).value) !in final;
    var part :| part in parts && part.Message? && Hole(name) in Parse(catalogue[part.key], false);
    var i :| 0 <= i < |parts| && parts[i] == part;
    LostTermThrows(parts, ranges, keys, 0, catalogue, final, i, name);
    NotAlways(parts, ranges, keys, catalogue, final, PLAIN);
  }

  // Values of any kind: where the law holds for texts and numbers, it holds in
  // a render if and only if no run of the list is given a value JSX leaves out.
  lemma SameValuesExactly(parts: seq<Part>, ranges: seq<Range>, keys: seq<string>, catalogue: Catalogue,
                          final: Catalogue, view: View)
    requires Placed(parts, ranges, 0) && |keys| == |ranges| && Complete(parts, catalogue)
    requires HoldsEntries(parts, ranges, keys, 0, catalogue, final) && TermsStand(catalogue, final)
    requires AllSafe(parts, ranges, catalogue) && AllHidden(parts, ranges, catalogue)
    requires TermsKnown(parts, catalogue, final)
    ensures ShowsAlike(parts, ranges, keys, 0, catalogue, final, view) <==> AllRead(parts, ranges, view.values)
  {
    WordsKept(parts, catalogue, final, view.renamed);
    if AllRead(parts, ranges, view.values) {
      SafeShowsAlike(parts, ranges, keys, 0, catalogue, final, view);
    } else {
      SpellsOut(parts, ranges, keys, 0, catalogue, final, view);
      DifferentInk(parts, ranges, keys, catalogue, final, view);
    }
  }

  lemma DifferentInk(parts: seq<Part>, ranges: seq<Range>, keys: seq<string>, catalogue: Catalogue, final: Catalogue,
                     view: View)
    requires Placed(parts, ranges, 0) && |keys| == |ranges|
    requires
      var before := Shown(parts, 0, |parts|, catalogue, view);
      var after := Rewritten(parts, ranges, keys, 0, final, view);
      before.Some? && after.Some? ==> |Ink(after.value)| != |Ink(before.value)|
    ensures !ShowsAlike(parts, ranges, keys, 0, catalogue, final, view)
  {
    var before := Shown(parts, 0, |parts|, catalogue, view);
    var after := Rewritten(parts, ranges, keys, 0, final, view);
    if before.Some? && after.Some? {
      CollapseKeepsInk(before.value);
      CollapseKeepsInk(after.value);
    }
  }

  // ---- a safe run whose trimmed end shows ----

  // A label, a value and a stroke with a space on either side, before an
  // element: `{t("s")}{n} / <b>`. The run is safe to combine, and the space
  // in front of the element is gone once it is combined.
  lemma TrailingSpaceShows(parts: seq<Part>, catalogue: Catalogue)
    requires parts == [Message("s"), Value("n"), Literal(" / ", " / "), Barrier] && catalogue == map["s" := "S"]
    ensures Range(0, 3) in Ranges([MessageKind, ValueKind, Wording, BarrierKind])
    ensures Complete(parts, catalogue) && Placed(parts, [Range(0, 3)], 0)
    ensures AllSafe(parts, [Range(0, 3)], catalogue) && !AllHidden(parts, [Range(0, 3)], catalogue)
  {
    SlashRunIsFound();
    SlashParses();
    SlashIsFramed(parts);
    SlashIsSound(parts, catalogue);
    SlashEnd(parts, Range(0, 3), parts[0..3], catalogue);
    OneRun(parts, Range(0, 3), catalogue);
  }

  lemma SlashParses()
    ensures Parse("S", false) == [Ch('S')]
  {
    assert "S"[1..] == "";
  }

  lemma SlashEnd(parts: seq<Part>, r: Range, run: seq<Part>, catalogue: Catalogue)
    requires IsFramed(parts, r) && run == parts[r.lo..r.hi] && r.hi < |parts| && parts[r.hi].Barrier?
    requires run == [Message("s"), Value("n"), Literal(" / ", " / ")] && catalogue == map["s" := "S"]
    requires Parse("S", false) == [Ch('S')]
    ensures Known(run, catalogue) && SafeToCombine(run, catalogue) && !EdgesHidden(parts, r, catalogue)
  {
    SlashPieces(run, catalogue);
    SlashIsSafe(run, catalogue);
    LastSpaceShows(parts, r, catalogue);
  }

  lemma SlashIsFramed(parts: seq<Part>)
    requires parts == [Message("s"), Value("n"), Literal(" / ", " / "), Barrier]
    ensures IsFramed(parts, Range(0, 3)) && LeftStart(parts, 0) == 0
  {
    assert parts[1].Value?;
  }

  lemma SlashIsSound(parts: seq<Part>, catalogue: Catalogue)
    requires parts == [Message("s"), Value("n"), Literal(" / ", " / "), Barrier] && catalogue == map["s" := "S"]
    requires Parse("S", false) == [Ch('S')]
    ensures Complete(parts, catalogue)
  {
  }

  // Whitespace a run ends with shows in front of another element.
  lemma LastSpaceShows(parts: seq<Part>, r: Range, catalogue: Catalogue)
    requires IsFramed(parts, r) && Known(parts[r.lo..r.hi], catalogue) && (r.hi == |parts| || parts[r.hi].Barrier?)
    requires var ps := ScreenPieces(parts[r.lo..r.hi], catalogue); ps != [] && Blank(ps[|ps| - 1])
    ensures !EdgesHidden(parts, r, catalogue)
  {
  }

  lemma OneRun(parts: seq<Part>, r: Range, catalogue: Catalogue)
    requires IsFramed(parts, r) && Known(parts, catalogue) && Known(parts[r.lo..r.hi], catalogue)
    ensures Placed(parts, [r], 0)
    ensures AllSafe(parts, [r], catalogue) <==> SafeToCombine(parts[r.lo..r.hi], catalogue)
    ensures AllHidden(parts, [r], catalogue) <==> EdgesHidden(parts, r, catalogue)
  {
    assert r in [r] && [r][1..] == [];
  }

  lemma SlashRunIsFound()
    ensures Range(0, 3) in Ranges([MessageKind, ValueKind, Wording, BarrierKind])
  {
    var kinds, r := [MessageKind, ValueKind, Wording, BarrierKind], Range(0, 3);
    assert Fits(kinds, r, 0, 3) && IsSegment(kinds, 0, 3);
    RangesAreExact(kinds, r);
    assert kinds[0..3][0] == MessageKind && kinds[0..3][1] == ValueKind;
  }

  lemma SlashPieces(run: seq<Part>, catalogue: Catalogue)
    requires run == [Message("s"), Value("n"), Literal(" / ", " / ")] && catalogue == map["s" := "S"]
    requires Parse("S", false) == [Ch('S')]
    ensures
      var ps := [Char('S'), Slot("n"), Char(' '), Char('/'), Char(' ')];
      RunPieces(run, catalogue) == ps && ScreenPieces(run, catalogue) == ps
  {
    var last := [Literal(" / ", " / ")];
    assert run[1..] == [Value("n")] + last && run[1..][1..] == last && last[1..] == [];
    assert RunPieces(last, catalogue) == Letters(" / ") + [];
    assert RunPieces(run[1..], catalogue) == [Slot("n")] + RunPieces(last, catalogue);
    assert MessagePieces("S") == [Char('S')];
    assert SeenParts(run) == run;
  }

  lemma SlashIsSafe(run: seq<Part>, catalogue: Catalogue)
    requires run == [Message("s"), Value("n"), Literal(" / ", " / ")] && Known(run, catalogue)
    requires RunPieces(run, catalogue) == [Char('S'), Slot("n"), Char(' '), Char('/'), Char(' ')]
    ensures SafeToCombine(run, catalogue)
  {
    var ps := RunPieces(run, catalogue);
    assert ps[1..] == [Slot("n"), Char(' '), Char('/'), Char(' ')];
    NoSlotNoDollar(ps[1..][1..]);
    PlainStem();
    forall e | e in Expressions(run) ensures e == "n" {
      assert Value(e) in run;
    }
  }

  lemma {:induction false} NoSlotNoDollar(ps: seq<Piece>)
    requires forall p | p in ps :: p.Char?
    ensures !DollarBefore(ps, false) && !DollarBefore(ps, true)
  {
    if ps != [] {
      NoSlotNoDollar(ps[1..]);
    }
  }

  // A name of one letter says nothing, and a value without a name is no term.
  lemma PlainStem()
    ensures !IsTermHole(Stem("n"))
  {
    assert "n"[1..] == "" && "n"[..1] == "n";
    assert Identifiers("n") == ["n"];
    assert ["n"][1..] == [] && LongOnes(["n"]) == [];
    assert Stem("n") == "value" by {
      assert AlnumOnly("value") == "value";
    }
    if IsTermHole("value") {
      TermEndsInLetter("value");
    }
  }
}
