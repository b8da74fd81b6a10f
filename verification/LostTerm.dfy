// A run of the script that takes a term's own word out of the catalogue: the
// term is rendered beside a value on one page, and a message on the same page
// names it (scripts/recombine-messages.ts, main; packages/ui/src/i18n/terms.ts,
// fillTermHole, which no run of the script reads).
module LostTerm {
  import opened Text
  import opened Messages
  import opened JsxTree
  import opened HoleNaming
  import opened RunScanner
  import opened Runs
  import opened ChildLists
  import opened Rendering
  import opened SameScreen
  import opened SameChildren
  import opened Splice
  import opened Rewrites
  import opened Recombiner
  import opened Script
  import opened SameScript

  // ---- new keys hold no quote ----

  predicate Unquoted(s: string) { '"' !in s }

  lemma {:induction false} PrefixUnquoted(key: string, rest: string)
    requires Unquoted(key) && Unquoted(rest)
    ensures Unquoted(PrefixFrom(key, rest))
  {
    if rest != "" && rest[|rest| - 1] != '.' {
      PrefixUnquoted(key, rest[..|rest| - 1]);
    }
  }

  lemma {:induction false} WordsAreAlnum(s: string)
    ensures forall word | word in Words(s) :: AllAlnum(word)
    decreases |s|
  {
    if s != "" {
      var n := NameLength(s);
      WordsAreAlnum(if n == 0 then s[1..] else s[n..]);
    }
  }

  lemma {:induction false} CamelUnquoted(words: seq<string>, first: bool)
    requires forall word | word in words :: AllAlnum(word)
    ensures Unquoted(CamelCase(words, first))
  {
    if words != [] {
      CamelUnquoted(words[1..], false);
      assert AllAlnum(words[0]);
    }
  }

  // A key made from an unquoted one can be quoted.
  lemma KeyUnquoted(firstKey: string, sentence: string, used: set<string>)
    requires Unquoted(firstKey)
    ensures Unquoted(KeyFor(firstKey, sentence, used))
  {
    var words := Words(WithoutHoles(sentence));
    WordsAreAlnum(WithoutHoles(sentence));
    PrefixUnquoted(firstKey, firstKey);
    CamelUnquoted(if |words| > 5 then words[..5] else words, true);
    var base := KeyBase(firstKey, sentence);
    assert Unquoted(base);
    var n := FirstFree(base, used, 1);
    assert n > 1 ==> Unquoted(Decimal(n));
  }

  // ---- what a text quotes ----

  // A quoted text without a quote in it is one of the pieces between quotes.
  lemma QuotedIsPiece(s: string, key: string)
    requires Contains(s, QuotedKey(key)) && Unquoted(key)
    ensures key in Split(s, '"')
  {
    var before, after :| s == before + QuotedKey(key) + after;
    var tail := key + ['"'] + after;
    assert s == before + ['"'] + tail;
    SplitAt(before, '"', tail);
    SplitAt(key, '"', after);
    SplitNone(key, '"');
    assert key in [key] + Split(after, '"');
  }

  lemma QuotedApart(a: string, key: string, rest: string)
    ensures a + QuotedKey(key) + rest == a + ['"'] + (key + ['"'] + rest)
  {
  }

  lemma SplitQuoted(a: string, key: string, rest: string)
    requires Unquoted(a) && Unquoted(key)
    ensures Split(a + QuotedKey(key) + rest, '"') == [a] + ([key] + Split(rest, '"'))
  {
    SplitPrefix(key, '"', rest);
    SplitPrefix(a, '"', key + ['"'] + rest);
    QuotedApart(a, key, rest);
  }

  lemma TwoQuoted(a: string, key: string, b: string, other: string, c: string, wanted: string)
    requires Unquoted(a) && Unquoted(key) && Unquoted(b) && Unquoted(other) && Unquoted(c) && Unquoted(wanted)
    requires wanted != a && wanted != key && wanted != b && wanted != other && wanted != c
    ensures !Contains(a + QuotedKey(key) + (b + QuotedKey(other) + c), QuotedKey(wanted))
  {
    SplitQuoted(a, key, b + QuotedKey(other) + c);
    SplitQuoted(b, other, c);
    SplitNone(c, '"');
    if Contains(a + QuotedKey(key) + (b + QuotedKey(other) + c), QuotedKey(wanted)) {
      QuotedIsPiece(a + QuotedKey(key) + (b + QuotedKey(other) + c), wanted);
    }
  }

  // ---- the page ----

  const TERM_KEY := "term.objective.singular"
  const ADD_KEY := "goals.add"
  const FIRST_TEXT := "{t(\"term.objective.singular\")}{\" \"}{n}"
  const REST := "</p><p>{t(\"goals.add\")}</p>"
  const PAGE := "<p>" + FIRST_TEXT + REST

  // The term beside a value, and the message that names it, in two paragraphs.
  function FirstList(): seq<Node> {
    [Braces(Call(TERM_KEY), "t(\"term.objective.singular\")", [], 3, 33), Braces(Quoted(" "), "\" \"", [], 33, 38),
     Braces(Expression, "n", [], 38, 41)]
  }

  function SecondList(): seq<Node> { [Braces(Call(ADD_KEY), "t(\"goals.add\")", [], 48, 64)] }

  function PageFile(first: seq<Node>, second: seq<Node>): File {
    File(PAGE, Other(false, [Element([], first, 0, 45), Element([], second, 45, 68)], 0, 68))
  }

  function EnglishOf(first: string, add: string): Catalogue { map[TERM_KEY := first, ADD_KEY := add] }

  // ---- the one run ----

  lemma FirstKinds(first: seq<Node>)
    requires first == FirstList()
    ensures Kinds(first) == [MessageKind, Gap, ValueKind]
  {
    assert Trim(" ") == "" by {
      assert " "[1..] == "";
    }
    assert !HasMarkup(first[2]);
    assert KindOf(first[0]) == MessageKind && KindOf(first[1]) == Gap && KindOf(first[2]) == ValueKind;
  }

  lemma OneRange(kinds: seq<Kind>)
    requires kinds == [MessageKind, Gap, ValueKind]
    ensures Ranges(kinds) == [Range(0, 3)]
  {
    assert FirstSubject(kinds, 0) == 0;
    assert SegmentEnd(kinds, 0) == 3 by {
      assert SegmentEnd(kinds, 3) == 3 && SegmentEnd(kinds, 2) == 3 && SegmentEnd(kinds, 1) == 3;
    }
    assert KeptEnd(kinds, 0, 3) == 3;
    assert CandidatesFrom(kinds, 3) == [];
    assert CandidatesFrom(kinds, 0) == [Range(0, 3)];
    assert kinds[0..3][0] == MessageKind && kinds[0..3][2] == ValueKind;
    assert Mixed(kinds, Range(0, 3));
    assert [Range(0, 3)][1..] == [] && OnlyMixed(kinds, [Range(0, 3)]) == [Range(0, 3)] + OnlyMixed(kinds, []);
  }

  lemma NoRange(kinds: seq<Kind>)
    requires kinds == [MessageKind]
    ensures Ranges(kinds) == []
  {
    assert FirstSubject(kinds, 0) == 0 && SegmentEnd(kinds, 0) == 1 && KeptEnd(kinds, 0, 1) == 1 by {
      assert SegmentEnd(kinds, 1) == 1;
    }
    assert CandidatesFrom(kinds, 1) == [] && CandidatesFrom(kinds, 0) == [Range(0, 1)];
    assert !Mixed(kinds, Range(0, 1)) && [Range(0, 1)][1..] == [];
    assert OnlyMixed(kinds, [Range(0, 1)]) == [] + OnlyMixed(kinds, []);
  }

  // A paragraph's runs are its own: it holds no markup.
  lemma ParagraphRuns(children: seq<Node>, lo: nat, hi: nat)
    requires forall n | n in children :: !HasMarkup(n)
    ensures RunsOf(Element([], children, lo, hi)) == OwnRuns(children)
  {
    NoneMarkupNoRuns(children);
    assert OwnRuns(children) + (RunsIn([]) + RunsIn(children)) == OwnRuns(children);
  }

  lemma FirstOwnRuns(first: seq<Node>)
    requires Kinds(first) == [MessageKind, Gap, ValueKind]
    ensures OwnRuns(first) == [first]
  {
    OneRange(Kinds(first));
    assert first[0..3] == first && [Range(0, 3)][1..] == [];
    assert Slices(first, [Range(0, 3)]) == [first] + Slices(first, []);
  }

  lemma TwoRuns(one: Node, two: Node)
    ensures RunsIn([one, two]) == RunsOf(one) + RunsOf(two)
  {
    assert [one, two][1..] == [two] && [two][1..] == [];
    assert RunsIn([two]) == RunsOf(two) + [];
  }

  lemma PageRuns(first: seq<Node>, second: seq<Node>, root: Node)
    requires Kinds(first) == [MessageKind, Gap, ValueKind] && Kinds(second) == [MessageKind]
    requires (forall n | n in first :: !HasMarkup(n)) && (forall n | n in second :: !HasMarkup(n))
    requires root == Other(false, [Element([], first, 0, 45), Element([], second, 45, 68)], 0, 68)
    ensures RunsOf(root) == [first] && OwnRuns(second) == []
  {
    FirstOwnRuns(first);
    NoRange(Kinds(second));
    ParagraphRuns(first, 0, 45);
    ParagraphRuns(second, 45, 68);
    var one, two := Element([], first, 0, 45), Element([], second, 45, 68);
    TwoRuns(one, two);
    assert RunsOf(root) == RunsIn([one, two]) && RunsOf(one) == [first] && RunsOf(two) == [];
  }

  // ---- the plan and the text after it ----

  lemma LeavesWellFormed(nodes: seq<Node>)
    requires forall n | n in nodes :: n.Braces? && n.inner == [] && n.lo < n.hi
    ensures forall n | n in nodes :: WellFormed(n) && !HasMarkup(n)
  {
    forall n | n in nodes ensures WellFormed(n) && !HasMarkup(n) {
      assert Under(n) == [];
    }
  }

  lemma ParagraphWellFormed(children: seq<Node>, lo: nat, hi: nat)
    requires lo <= hi && Ordered(children, lo, hi) && forall n | n in children :: WellFormed(n)
    ensures WellFormed(Element([], children, lo, hi))
  {
    assert Under(Element([], children, lo, hi)) == children;
  }

  lemma PageWellFormed(first: seq<Node>, second: seq<Node>, file: File)
    requires first == FirstList() && second == SecondList() && file == PageFile(first, second)
    ensures Parsed(file)
  {
    PageLength();
    FirstWellFormed(first);
    SecondWellFormed(second);
    RootWellFormed(Element([], first, 0, 45), Element([], second, 45, 68), file.tree);
  }

  lemma FirstWellFormed(first: seq<Node>)
    requires first == FirstList()
    ensures WellFormed(Element([], first, 0, 45))
  {
    FirstIsOrdered(first);
    LeavesWellFormed(first);
    ParagraphWellFormed(first, 0, 45);
  }

  lemma FirstIsOrdered(first: seq<Node>)
    requires first == FirstList()
    ensures Ordered(first, 0, 45) && forall n | n in first :: n.Braces? && n.inner == [] && n.lo < n.hi
  {
  }

  lemma SecondWellFormed(second: seq<Node>)
    requires second == SecondList()
    ensures WellFormed(Element([], second, 45, 68))
  {
    LeavesWellFormed(second);
    ParagraphWellFormed(second, 45, 68);
  }

  lemma PageLength()
    ensures |PAGE| == 68
  {
    RestOfPage();
  }

  lemma RootWellFormed(one: Node, two: Node, root: Node)
    requires WellFormed(one) && WellFormed(two) && one.lo == 0 && one.hi <= two.lo && two.hi <= 68
    requires root == Other(false, [one, two], 0, 68)
    ensures WellFormed(root)
  {
    assert Under(root) == [one, two];
  }

  lemma FirstParts(first: seq<Node>)
    requires first == FirstList()
    ensures PartsOf(first) == [Message(TERM_KEY), Literal(" ", " "), Value("n")]
  {
    assert Trim(" ") == "" by {
      assert " "[1..] == "";
    }
    assert !HasMarkup(first[2]);
  }

  lemma PageParts(parts: seq<Part>)
    requires parts == [Message(TERM_KEY), Literal(" ", " "), Value("n")]
    ensures KeysOf(parts) == [TERM_KEY] && Expressions(parts) == ["n"]
  {
    var two, one := [Literal(" ", " "), Value("n")], [Value("n")];
    assert parts[1..] == two && two[1..] == one && one[1..] == [];
    assert KeysOf(one) == [] && KeysOf(two) == [] + KeysOf(one);
    assert Expressions(one) == ["n"] + [] && Expressions(two) == [] + Expressions(one);
  }

  // The page's one rewrite.
  lemma PagePlan(run: Run, parts: seq<Part>, first: string, file: File, en: Catalogue, ms: Catalogue)
    returns (r: Rewrite)
    requires RunsOf(file.tree) == [run] && run != [] && parts == PartsOf(run) && Known(parts, en)
    requires KeysOf(parts) == [first] && Unquoted(first) && Expressions(parts) == ["n"]
    ensures Plan([file], en, ms, map[]) == [[r]]
    ensures r.lo == Start(run) && r.hi == End(run) && r.retired == [first]
    ensures Unquoted(r.newKey) && r.newKey !in en
    ensures r.replacement == Replacement(r.newKey, Bindings(["n"], map[]))
  {
    r := PageRewrite(run, parts, first, en, ms, map[]);
    RewriteOfOne(run, en, ms, map[], r);
    PlanOfOne(file, en, ms);
  }

  lemma PageRewrite(run: Run, parts: seq<Part>, first: string, en: Catalogue, ms: Catalogue, claimed: Catalogue)
    returns (r: Rewrite)
    requires run != [] && parts == PartsOf(run) && Known(parts, en)
    requires KeysOf(parts) == [first] && Unquoted(first)
    ensures Combine(run, en, ms, claimed) == Some(r)
    ensures r.lo == Start(run) && r.hi == End(run) && r.retired == [first]
    ensures Unquoted(r.newKey) && r.newKey !in en
    ensures r.replacement == Replacement(r.newKey, Bindings(Expressions(parts), map[]))
  {
    var english := Combined(parts, en);
    var key := KeyFor(first, english, en.Keys + claimed.Keys);
    KeyUnquoted(first, english, en.Keys + claimed.Keys);
    NewKeyFresh(first, english, en, claimed);
    r := MadeOf(run, parts, english, key, en, ms, claimed);
  }

  lemma MadeOf(run: Run, parts: seq<Part>, english: string, key: string, en: Catalogue, ms: Catalogue,
               claimed: Catalogue)
    returns (r: Rewrite)
    requires run != [] && parts == PartsOf(run) && Known(parts, en) && KeysOf(parts) != []
    requires english == Combined(parts, en) && key == KeyFor(KeysOf(parts)[0], english, en.Keys + claimed.Keys)
    ensures Combine(run, en, ms, claimed) == Some(r)
    ensures r.lo == Start(run) && r.hi == End(run) && r.retired == KeysOf(parts) && r.newKey == key
    ensures r.replacement == Replacement(key, Bindings(Expressions(parts), map[]))
  {
    r := Combine(run, en, ms, claimed).value;
  }

  lemma NewKeyFresh(first: string, english: string, en: Catalogue, claimed: Catalogue)
    ensures KeyFor(first, english, en.Keys + claimed.Keys) !in en
  {
  }

  lemma RewriteOfOne(run: Run, en: Catalogue, ms: Catalogue, claimed: Catalogue, r: Rewrite)
    requires Combine(run, en, ms, claimed) == Some(r)
    ensures RewriteAll([run], en, ms, claimed) == [r]
  {
    assert [run][1..] == [] && RewriteAll([], en, ms, Claim(Some(r), claimed)) == [];
    assert Listed(Some(r)) == [r] && [r] + [] == [r];
  }

  lemma PlanOfOne(file: File, en: Catalogue, ms: Catalogue)
    ensures Plan([file], en, ms, map[]) == [FileRewrites(file, en, ms, map[])]
  {
    assert [file][1..] == [];
  }

  lemma SpliceOne(source: string, edits: seq<Edit>, edit: Edit)
    requires edits == [edit] && edit.lo < edit.hi <= |source|
    ensures Replaced(source, edits, 0) == source[..edit.lo] + edit.text + source[edit.hi..]
  {
    assert edit in edits;
    EditAtIs(edits, edit, |source|);
    CopiedUntil(source, edits, 0, edit.lo);
    CopiedUntil(source, edits, edit.hi, |source|);
    CopiedEnds(source, edits, edit);
    Regroup(source[..edit.lo], edit.text, source[edit.hi..]);
  }

  lemma CopiedEnds(source: string, edits: seq<Edit>, edit: Edit)
    requires Fitting(edits, |source|) && edit.lo < edit.hi <= |source|
    ensures source[0..edit.lo] == source[..edit.lo]
    ensures source[edit.hi..|source|] + Replaced(source, edits, |source|) == source[edit.hi..]
  {
    assert Replaced(source, edits, |source|) == "";
  }

  // The object literal of the replacement.
  lemma ValueUnquoted(bindings: seq<Binding>)
    requires bindings == Bindings(["n"], map[])
    ensures Unquoted(Join(ShownBindings(bindings), ", "))
  {
    var name := Stem("n");
    assert ["n"][1..] == [] && HoleFor("n", map[]) == name;
    assert bindings == [Binding(name, "n")] + [] && [Binding(name, "n")][1..] == [];
    assert Join(ShownBindings(bindings), ", ") == ShownBinding(Binding(name, "n"));
  }

  function Between(values: string): string { ", { " + values + " })}</p><p>{t(" }

  lemma PageSpliced(source: string, newKey: string, values: string, edit: Edit)
    requires source == PAGE && edit.lo == 3 && edit.hi == 41
    requires edit.text == "{t(" + QuotedKey(newKey) + ", { " + values + " })}"
    ensures Replaced(source, [edit], 0)
         == "<p>{t(" + QuotedKey(newKey) + (Between(values) + QuotedKey(ADD_KEY) + ")}</p>")
  {
    RestOfPage();
    EndsOf("<p>", FIRST_TEXT, REST, source);
    SpliceOne(source, [edit], edit);
    Rejoin(QuotedKey(newKey), values, QuotedKey(ADD_KEY));
  }

  lemma RestOfPage()
    ensures REST == "</p><p>{t(" + QuotedKey(ADD_KEY) + ")}</p>" && |FIRST_TEXT| == 38
  {
  }

  lemma EndsOf(a: string, b: string, c: string, source: string)
    requires source == a + b + c
    ensures |source| == |a| + |b| + |c| && source[..|a|] == a && source[|a| + |b|..] == c
  {
  }

  lemma Rejoin(key: string, values: string, other: string)
    ensures "<p>" + ("{t(" + key + ", { " + values + " })}") + ("</p><p>{t(" + other + ")}</p>")
         == "<p>{t(" + key + (Between(values) + other + ")}</p>")
  {
  }

  lemma TermNotQuoted(newKey: string, values: string)
    requires Unquoted(newKey) && newKey != TERM_KEY && Unquoted(values)
    ensures !Contains("<p>{t(" + QuotedKey(newKey) + (Between(values) + QuotedKey(ADD_KEY) + ")}</p>"),
                      QuotedKey(TERM_KEY))
  {
    assert Unquoted("<p>{t(") && Unquoted(")}</p>") && Unquoted(ADD_KEY) && Unquoted(TERM_KEY);
    assert Unquoted(Between(values)) && Between(values)[0] == ',';
    TwoQuoted("<p>{t(", newKey, Between(values), ADD_KEY, ")}</p>", TERM_KEY);
  }

  // ---- the message that names the term ----

  lemma NamesTheTerm(message: string, lead: string, name: string)
    requires name == "termObjectiveLower" && message == lead + Braced(name)
    requires lead != "" && lead[|lead| - 1] != '$' && forall i | 0 <= i < |lead| :: NoBrace(lead[i])
    ensures TermHoleOf(name) == Some(TermHole("objective", false, true))
    ensures Clean(message) && Hole(name) in Parse(message, false)
    ensures forall token | token in Parse(message, false) && token.Hole? :: token.name == name
  {
    NameOfTerm(name);
    NameIsAlnum(name);
    MessageParses(lead, name);
    TokensAre(lead, name, Parse(message, false));
  }

  lemma TokensAre(lead: string, name: string, tokens: seq<Token>)
    requires tokens == Chars(lead) + [Hole(name)] && forall i | 0 <= i < |lead| :: NoBrace(lead[i])
    ensures Hole(name) in tokens
    ensures forall token | token in tokens :: if token.Ch? then NoBrace(token.c) else token.name == name
  {
    assert tokens[|lead|] == Hole(name);
  }

  lemma NameOfTerm(name: string)
    requires name == "termObjectiveLower"
    ensures TermHoleOf(name) == Some(TermHole("objective", false, true))
  {
    var h := TermHole("objective", false, true);
    assert Capitalised("objective") == "Objective" by {
      assert "objective"[1..] == "bjective";
    }
    assert TermHoleName(h) == name;
    TermHoleReadBack(h, name);
  }

  lemma MessageParses(lead: string, name: string)
    requires lead != "" && lead[|lead| - 1] != '$' && forall i | 0 <= i < |lead| :: NoBrace(lead[i])
    requires IsHoleName(name)
    ensures Parse(lead + Braced(name), false) == Chars(lead) + [Hole(name)]
  {
    HoleAlone(name);
    LeadParses(lead, Braced(name));
  }

  lemma LeadParses(lead: string, rest: string)
    requires lead != "" && lead[|lead| - 1] != '$' && forall i | 0 <= i < |lead| :: NoBrace(lead[i])
    ensures Parse(lead + rest, false) == Chars(lead) + Parse(rest, false)
  {
    ParseChars(lead, rest, false);
  }

  lemma HoleAlone(name: string)
    requires IsHoleName(name)
    ensures Parse(Braced(name), false) == [Hole(name)]
  {
    ParseHole(name, "", false);
    assert Braced(name) + "" == Braced(name);
  }

  lemma NameIsAlnum(name: string)
    requires name == "termObjectiveLower"
    ensures IsHoleName(name)
  {
  }

  lemma SecondRenders(second: seq<Node>, catalogue: Catalogue, lead: string)
    requires second == SecondList() && TERM_KEY in catalogue && ADD_KEY in catalogue
    requires catalogue[ADD_KEY] == lead + Braced("termObjectiveLower")
    requires lead != "" && lead[|lead| - 1] != '$' && forall i | 0 <= i < |lead| :: NoBrace(lead[i])
    ensures PartsOf(second) == [Message(ADD_KEY)] && RendersFrom(second, catalogue)
    ensures NamesTerm(PartsOf(second), catalogue, "termObjectiveLower")
  {
    var parts, name := PartsOf(second), "termObjectiveLower";
    assert parts == [Message(ADD_KEY)];
    NamesTheTerm(catalogue[ADD_KEY], lead, name);
    TheTermKey();
    assert Message(ADD_KEY) in parts;
    forall x | NamesTerm(parts, catalogue, x) ensures x == name {
      var part :| part in parts && part.Message? && Hole(x) in Parse(catalogue[part.key], false);
    }
  }

  lemma TheTermKey()
    ensures TermKey(TermHole("objective", false, true)) == TERM_KEY
  {
  }

  // ---- the entry is lost ----

  // The page as it is, and the script run over it: the first paragraph's run
  // retires the term's key, which no file the script reads quotes any more. The
  // second paragraph has no run, and its message throws wherever the workspace
  // has not renamed the term. So does a component that renders the term's key in
  // a file the script does not read.
  lemma TermEntryIsLost(en: Catalogue, ms: Catalogue, lead: string, second: seq<Node>, file: File)
    returns (after: string)
    requires TERM_KEY in en && ADD_KEY in en && en[ADD_KEY] == lead + Braced("termObjectiveLower")
    requires lead != "" && lead[|lead| - 1] != '$' && forall i | 0 <= i < |lead| :: NoBrace(lead[i])
    requires second == SecondList() && file == PageFile(FirstList(), second)
    ensures HasRun([file], en, ms, [after])
    ensures HasList(file.tree, second) && RendersFrom(second, en) && Ranges(Kinds(second)) == []
    ensures TERM_KEY in TakenOut([file], en, ms, [after])
    ensures forall renamed :: Translate(FinalEnglish([file], en, ms, [after]), TERM_KEY, None, renamed) == None
    ensures Placed(PartsOf(second), [], 0)
         && !AlwaysAlike(PartsOf(second), [], [], en, FinalEnglish([file], en, ms, [after]))
  {
    PageIsRead(FirstList(), second, file);
    SecondRenders(second, en, lead);
    SecondHasNone(second);
    SecondIsThere(FirstList(), second, file.tree);
    PageParts(PartsOf(FirstList()));
    PageKnown(PartsOf(FirstList()), en);
    after := RunOverPage(FirstList(), PartsOf(FirstList()), TERM_KEY, file, en, ms);
    FinalLacks(file, en, ms, after);
    SecondThrows(PartsOf(second), en, FinalEnglish([file], en, ms, [after]));
  }

  lemma PageIsRead(first: seq<Node>, second: seq<Node>, file: File)
    requires first == FirstList() && second == SecondList() && file == PageFile(first, second)
    ensures Parsed(file) && RunsOf(file.tree) == [first] && file.source == PAGE
    ensures Start(first) == 3 && End(first) == 41
    ensures PartsOf(first) == [Message(TERM_KEY), Literal(" ", " "), Value("n")]
  {
    PageWellFormed(first, second, file);
    FirstKinds(first);
    FirstParts(first);
    SecondHasNone(second);
    LeavesWellFormed(first);
    LeavesWellFormed(second);
    PageRuns(first, second, file.tree);
  }

  lemma SecondHasNone(second: seq<Node>)
    requires second == SecondList()
    ensures Kinds(second) == [MessageKind] && Ranges(Kinds(second)) == []
  {
    assert KindOf(second[0]) == MessageKind;
    NoRange(Kinds(second));
  }

  lemma SecondIsThere(first: seq<Node>, second: seq<Node>, root: Node)
    requires root == Other(false, [Element([], first, 0, 45), Element([], second, 45, 68)], 0, 68)
    ensures HasList(root, second)
  {
    var two := Element([], second, 45, 68);
    assert HasList(two, second) && Under(root)[1] == two;
  }

  // The script run over the one file.
  lemma RunOverPage(run: Run, parts: seq<Part>, term: string, file: File, en: Catalogue, ms: Catalogue)
    returns (after: string)
    requires Parsed(file) && RunsOf(file.tree) == [run] && file.source == PAGE && term == TERM_KEY
    requires run != [] && Start(run) == 3 && End(run) == 41 && parts == PartsOf(run) && Known(parts, en)
    requires KeysOf(parts) == [term] && Unquoted(term) && Expressions(parts) == ["n"] && term in en
    ensures HasRun([file], en, ms, [after]) && term in TakenOut([file], en, ms, [after])
  {
    var r := PagePlan(run, parts, term, file, en, ms);
    after := PlannedOverPage(file, term, en, ms, r);
  }

  lemma PageKnown(parts: seq<Part>, en: Catalogue)
    requires parts == [Message(TERM_KEY), Literal(" ", " "), Value("n")] && TERM_KEY in en
    ensures Known(parts, en) && Unquoted(TERM_KEY)
  {
  }

  lemma PlannedOverPage(file: File, term: string, en: Catalogue, ms: Catalogue, r: Rewrite) returns (after: string)
    requires Parsed(file) && file.source == PAGE && Plan([file], en, ms, map[]) == [[r]] && r.lo == 3 && r.hi == 41
    requires term == TERM_KEY && Unquoted(r.newKey) && r.newKey != term && r.retired == [term]
    requires r.replacement == Replacement(r.newKey, Bindings(["n"], map[]))
    ensures HasRun([file], en, ms, [after]) && term in TakenOut([file], en, ms, [after])
  {
    after := SplicePage(file, en, ms, r);
    TakenFromPage(file, en, ms, r, after);
  }

  lemma SplicePage(file: File, en: Catalogue, ms: Catalogue, r: Rewrite) returns (after: string)
    requires Parsed(file) && Plan([file], en, ms, map[]) == [[r]]
    ensures Fitting(EditsOf([r]), |file.source|) && after == Replaced(file.source, EditsOf([r]), 0)
    ensures HasRun([file], en, ms, [after])
  {
    PlanFits([file], en, ms, map[]);
    assert Plan([file], en, ms, map[])[0] == [r];
    after := Replaced(file.source, EditsOf([r]), 0);
  }

  lemma TakenFromPage(file: File, en: Catalogue, ms: Catalogue, r: Rewrite, after: string)
    requires file.source == PAGE && Plan([file], en, ms, map[]) == [[r]] && r.lo == 3 && r.hi == 41
    requires Unquoted(r.newKey) && r.newKey != TERM_KEY && r.retired == [TERM_KEY]
    requires r.replacement == Replacement(r.newKey, Bindings(["n"], map[]))
    requires Fitting(EditsOf([r]), |file.source|) && after == Replaced(file.source, EditsOf([r]), 0)
    ensures TERM_KEY in TakenOut([file], en, ms, [after])
  {
    var values := Join(ShownBindings(Bindings(["n"], map[])), ", ");
    ValueUnquoted(Bindings(["n"], map[]));
    assert EditsOf([r]) == [EditOf(r)];
    PageSpliced(file.source, r.newKey, values, EditOf(r));
    TermNotQuoted(r.newKey, values);
    IncludesIsContains(after, QuotedKey(TERM_KEY));
    FlatHas([[r]], 0, r);
    assert TERM_KEY in r.retired;
  }

  lemma FinalLacks(file: File, en: Catalogue, ms: Catalogue, after: string)
    requires TERM_KEY in TakenOut([file], en, ms, [after]) && TERM_KEY in en && ADD_KEY in en
    ensures
      var final := FinalEnglish([file], en, ms, [after]);
      TERM_KEY !in final && (ADD_KEY in final ==> final[ADD_KEY] == en[ADD_KEY])
  {
    var all := Flat(Plan([file], en, ms, map[]));
    PlanIsFresh([file], en, ms, map[]);
    EntryStands(en, all, false, [after], TERM_KEY);
    EntryStands(en, all, false, [after], ADD_KEY);
  }

  lemma SecondThrows(parts: seq<Part>, en: Catalogue, final: Catalogue)
    requires parts == [Message(ADD_KEY)] && Known(parts, en) && NamesTerm(parts, en, "termObjectiveLower")
    requires TERM_KEY !in final && (ADD_KEY in final ==> final[ADD_KEY] == en[ADD_KEY])
    ensures Placed(parts, [], 0) && !AlwaysAlike(parts, [], [], en, final)
  {
    var name := "termObjectiveLower";
    NameOfTerm(name);
    TheTermKey();
    if ADD_KEY in final {
      LostWord(parts[0], en, final, name);
    }
    assert SameChildren.Shown(parts, 0, 1, final, PLAIN) == None;
    NotAlways(parts, [], [], en, final, PLAIN);
  }
}
