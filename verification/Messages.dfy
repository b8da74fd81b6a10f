// The message catalogue: named holes, and how a message is filled
// (packages/ui/src/i18n/catalogue.ts and terms.ts).
module Messages {
  import opened Text

  // Catalogue keys to message texts.
  type Catalogue = map<string, string>

  // What a message is made of once its holes are recognised.
  datatype Token = Ch(c: char) | Hole(name: string)

  predicate IsHoleName(name: string) {
    name != "" && IsLetter(name[0]) && AllAlnum(name)
  }

  // How many leading characters are letters or digits.
  function NameLength(s: string): (n: nat)
    ensures n <= |s| && AllAlnum(s[..n])
    ensures n < |s| ==> !IsAlnum(s[n])
  {
    if s != "" && IsAlnum(s[0]) then
      var n := NameLength(s[1..]);
      assert s[..1 + n] == [s[0]] + s[1..][..n];
      1 + n
    else 0
  }

  // The name of the hole that `s` starts with, if it starts with one.
  function LeadingHole(s: string): (name: Option<string>)
    ensures name.Some? ==> IsHoleName(name.value) && Braced(name.value) <= s
  {
    if s == "" || s[0] != '{' then None
    else
      var n := NameLength(s[1..]);
      if n > 0 && IsLetter(s[1]) && n + 1 < |s| && s[n + 1] == '}' then
        assert s[..n + 2] == Braced(s[1..n + 1]);
        assert s[1..n + 1] == s[1..][..n];
        Some(s[1..n + 1])
      else None
  }

  function Braced(name: string): string { "{" + name + "}" }

  // A message as the hole expression cuts it, left to right. `dollar` says
  // whether the character before `s` is a dollar sign, after which a
  // brace opens no hole.
  function Parse(s: string, dollar: bool): seq<Token>
    decreases |s|
  {
    if s == "" then []
    else
      var hole := LeadingHole(s);
      if !dollar && hole.Some? then
        [Hole(hole.value)] + Parse(s[|hole.value| + 2..], false)
      else
        [Ch(s[0])] + Parse(s[1..], s[0] == '$')
  }

  function Shown(token: Token): string {
    match token
    case Ch(c) => [c]
    case Hole(name) => Braced(name)
  }

  // A token sequence written back as catalogue text.
  function Written(tokens: seq<Token>): string {
    if tokens == [] then "" else Shown(tokens[0]) + Written(tokens[1..])
  }

  lemma {:induction false} WrittenConcat(left: seq<Token>, right: seq<Token>)
    ensures Written(left + right) == Written(left) + Written(right)
  {
    if left == [] {
      assert left + right == right;
    } else {
      assert (left + right)[1..] == left[1..] + right;
      WrittenConcat(left[1..], right);
    }
  }

  function Chars(s: string): (r: seq<Token>)
    ensures |r| == |s|
    ensures forall i | 0 <= i < |s| :: r[i] == Ch(s[i])
  {
    seq(|s|, i requires 0 <= i < |s| => Ch(s[i]))
  }

  lemma WrittenOneMore(token: Token, rest: seq<Token>)
    ensures Written([token] + rest) == Shown(token) + Written(rest)
  {
    assert ([token] + rest)[1..] == rest;
  }

  // Parsing loses nothing.
  lemma {:induction false} WrittenParse(s: string, dollar: bool)
    ensures Written(Parse(s, dollar)) == s
    decreases |s|
  {
    if s != "" {
      var hole := LeadingHole(s);
      if !dollar && hole.Some? {
        WrittenParse(s[|hole.value| + 2..], false);
        HoleLosesNothing(s, hole.value);
      } else {
        WrittenParse(s[1..], s[0] == '$');
        CharLosesNothing(s, dollar);
      }
    }
  }

  lemma HoleLosesNothing(s: string, name: string)
    requires s != "" && LeadingHole(s) == Some(name)
    requires Written(Parse(s[|name| + 2..], false)) == s[|name| + 2..]
    ensures Written(Parse(s, false)) == s
  {
    var rest := s[|name| + 2..];
    PrefixSplits(Braced(name), s);
    WrittenOneMore(Hole(name), Parse(rest, false));
    assert Parse(s, false) == [Hole(name)] + Parse(rest, false);
  }

  lemma PrefixSplits(start: string, s: string)
    requires start <= s
    ensures s == start + s[|start|..]
  {
  }

  lemma CharLosesNothing(s: string, dollar: bool)
    requires s != "" && (dollar || LeadingHole(s) == None)
    requires Written(Parse(s[1..], s[0] == '$')) == s[1..]
    ensures Written(Parse(s, dollar)) == s
  {
    WrittenOneMore(Ch(s[0]), Parse(s[1..], s[0] == '$'));
  }

  predicate NoBrace(c: char) { c != '{' && c != '}' }

  // Tokens whose characters hold no brace and whose holes are well named.
  predicate Plain(tokens: seq<Token>) {
    forall i | 0 <= i < |tokens| ::
      match tokens[i] case Ch(c) => NoBrace(c) case Hole(name) => IsHoleName(name)
  }

  // What a reader of the written text sees: a hole behind a dollar sign is not
  // one, and reads as it was written.
  function Guarded(tokens: seq<Token>, dollar: bool): seq<Token> {
    if tokens == [] then []
    else match tokens[0]
      case Ch(c) => [tokens[0]] + Guarded(tokens[1..], c == '$')
      case Hole(name) =>
        (if dollar then Chars(Braced(name)) else [tokens[0]]) + Guarded(tokens[1..], false)
  }

  // Whether some hole sits directly behind a dollar sign.
  predicate DollarHole(tokens: seq<Token>, dollar: bool) {
    tokens != [] &&
    match tokens[0]
    case Ch(c) => DollarHole(tokens[1..], c == '$')
    case Hole(_) => dollar || DollarHole(tokens[1..], false)
  }

  lemma {:induction false} GuardedIsIdentity(tokens: seq<Token>, dollar: bool)
    requires !DollarHole(tokens, dollar)
    ensures Guarded(tokens, dollar) == tokens
  {
    if tokens != [] {
      GuardedIsIdentity(tokens[1..], tokens[0].Ch? && tokens[0].c == '$');
      assert tokens == [tokens[0]] + tokens[1..];
    }
  }

  lemma ParseChar(c: char, rest: string, dollar: bool)
    requires c != '{'
    ensures Parse([c] + rest, dollar) == [Ch(c)] + Parse(rest, c == '$')
  {
    assert ([c] + rest)[0] == c && ([c] + rest)[1..] == rest;
  }

  lemma CharsThen(c: char, tail: string)
    ensures Chars([c] + tail) == [Ch(c)] + Chars(tail)
  {
    assert ([c] + tail)[1..] == tail;
  }

  // One character more in front.
  lemma ParseCharThen(c: char, tail: string, rest: string, dollar: bool)
    requires c != '{'
    requires Parse(tail + rest, c == '$') == Chars(tail) + Parse(rest, false)
    ensures Parse([c] + (tail + rest), dollar) == ([Ch(c)] + Chars(tail)) + Parse(rest, false)
  {
    ParseChar(c, tail + rest, dollar);
    Regroup([Ch(c)], Chars(tail), Parse(rest, false));
  }

  // Text without an opening brace parses to its own characters.
  lemma {:induction false} ParseChars(s: string, rest: string, dollar: bool)
    requires s != "" && '{' !in s && s[|s| - 1] != '$'
    ensures Parse(s + rest, dollar) == Chars(s) + Parse(rest, false)
  {
    var c, tail := s[0], s[1..];
    if tail == "" {
      assert "" + rest == rest && Chars("") + Parse(rest, false) == Parse(rest, false);
    } else {
      ParseChars(tail, rest, c == '$');
    }
    ParseCharThen(c, tail, rest, dollar);
    Regroup([c], tail, rest);
    CharsThen(c, tail);
    assert s == [c] + tail;
  }

  lemma NameLengthOf(name: string, rest: string)
    requires AllAlnum(name)
    requires rest != "" && !IsAlnum(rest[0])
    ensures NameLength(name + rest) == |name|
  {
    var s := name + rest;
    assert forall i | 0 <= i < |name| :: s[i] == name[i];
    assert s[|name|] == rest[0];
    assert forall n | |name| < n <= |s| :: s[..n][|name|] == rest[0];
  }

  lemma LeadingHoleOf(name: string, rest: string)
    requires IsHoleName(name)
    ensures LeadingHole(Braced(name) + rest) == Some(name)
  {
    var s := Braced(name) + rest;
    assert s[1..] == name + ("}" + rest);
    NameLengthOf(name, "}" + rest);
    assert s[1] == name[0];
    assert s[1..|name| + 1] == name;
  }

  // Parsing what was written gives the tokens back, but for the holes a
  // dollar sign guards.
  lemma {:induction false} ParseWritten(tokens: seq<Token>, dollar: bool)
    requires Plain(tokens)
    ensures Parse(Written(tokens), dollar) == Guarded(tokens, dollar)
  {
    if tokens != [] {
      var rest := Written(tokens[1..]);
      match tokens[0]
      case Ch(c) =>
        ParseWritten(tokens[1..], c == '$');
        assert ([c] + rest)[1..] == rest;
      case Hole(name) =>
        ParseWritten(tokens[1..], false);
        ParseHole(name, rest, dollar);
    }
  }

  lemma ParseHole(name: string, rest: string, dollar: bool)
    requires IsHoleName(name)
    ensures Parse(Braced(name) + rest, dollar)
         == (if dollar then Chars(Braced(name)) else [Hole(name)]) + Parse(rest, false)
  {
    if dollar {
      ParseGuardedHole(name, rest);
    } else {
      LeadingHoleOf(name, rest);
      var s := Braced(name) + rest;
      assert s[|name| + 2..] == rest;
    }
  }

  lemma ParseGuardedHole(name: string, rest: string)
    requires IsHoleName(name)
    ensures Parse(Braced(name) + rest, true) == Chars(Braced(name)) + Parse(rest, false)
  {
    var tail := name + "}";
    var s := Braced(name) + rest;
    assert s[0] == '{' && s[1..] == tail + rest;
    assert Parse(s, true) == [Ch('{')] + Parse(tail + rest, false);
    ParseChars(tail, rest, false);
    assert Chars(Braced(name)) == [Ch('{')] + Chars(tail);
  }

  // ---- terms ----

  // The method's terms, by the names a workspace's renames go by.
  const TERMS: seq<string> := [
    "objective", "keyResult", "cycle", "space", "champion", "reviewer", "sponsor",
    "facilitator", "coordinator", "contributor", "checkIn", "confidence", "score",
    "kpi", "atRisk"
  ]

  predicate Among(words: seq<string>, word: string) { words != [] && (word == words[0] || Among(words[1..], word)) }

  predicate IsTerm(term: string) { Among(TERMS, term) }

  lemma {:induction false} AmongIsIn(words: seq<string>, word: string)
    ensures Among(words, word) <==> word in words
  {
    if words != [] {
      AmongIsIn(words[1..], word);
    }
  }

  // A hole for a term: which one, in which number, and where in a sentence.
  datatype TermHole = TermHole(term: string, plural: bool, running: bool)

  function Capitalised(word: string): (r: string)
    ensures |r| == |word| && (word != "" ==> r == [ToUpper(word[0])] + word[1..])
  {
    if word == "" then "" else [ToUpper(word[0])] + word[1..]
  }

  function TermStem(term: string): string { "term" + Capitalised(term) }

  // The name a message spells the hole with.
  function TermHoleName(h: TermHole): string {
    TermStem(h.term) + (if h.plural then "s" else "") + (if h.running then "Lower" else "")
  }

  // The term a name without its marks stands for.
  function TermOf(stem: string): Option<string> {
    if |stem| <= 4 then None
    else
      var term := [ToLower(stem[4])] + stem[5..];
      if TermStem(term) == stem && IsTerm(term) then Some(term) else None
  }

  predicate EndsLower(s: string) {
    && |s| >= 5 && s[|s| - 5] == 'L' && s[|s| - 4] == 'o' && s[|s| - 3] == 'w' && s[|s| - 2] == 'e' && s[|s| - 1] == 'r'
  }

  function WithoutLower(name: string): string {
    if EndsLower(name) then name[..|name| - 5] else name
  }

  // The term and the number of a name without its place.
  function NumberOf(stem: string): Option<(string, bool)> {
    if TermOf(stem).Some? then Some((TermOf(stem).value, false))
    else if stem != "" && stem[|stem| - 1] == 's' && TermOf(stem[..|stem| - 1]).Some? then
      Some((TermOf(stem[..|stem| - 1]).value, true))
    else None
  }

  // The hole a name spells, if it spells one.
  function TermHoleOf(name: string): Option<TermHole> {
    match NumberOf(WithoutLower(name))
    case Some((term, plural)) => Some(TermHole(term, plural, EndsLower(name)))
    case None => None
  }

  // A hole the translator fills by itself, with a term of the method.
  predicate IsTermHole(name: string) { TermHoleOf(name).Some? }

  // What keeps the marks apart from the terms they stand behind.
  predicate TakesMarks(term: string) {
    && |term| >= 3 && 'a' <= term[0] <= 'z' && IsLetter(term[|term| - 1]) && term[|term| - 1] != 's'
    && (|term| > 3 && term[|term| - 1] == 'r' && term[|term| - 2] == 'e' ==> term[|term| - 4] != 'o')
  }

  lemma TermsTakeMarks(term: string)
    requires IsTerm(term)
    ensures TakesMarks(term)
  {
    assert TakesMarks("objective") && TakesMarks("keyResult") && TakesMarks("cycle");
    assert TakesMarks("space") && TakesMarks("champion") && TakesMarks("reviewer");
    assert TakesMarks("sponsor") && TakesMarks("facilitator") && TakesMarks("coordinator");
    assert TakesMarks("contributor") && TakesMarks("checkIn") && TakesMarks("confidence");
    assert TakesMarks("score") && TakesMarks("kpi") && TakesMarks("atRisk");
    AmongIsIn(TERMS, term);
  }

  lemma StemEnds(term: string)
    requires TakesMarks(term)
    ensures
      var stem := TermStem(term);
      && |stem| == |term| + 4 && stem[4] == ToUpper(term[0]) && stem[5..] == term[1..]
      && stem[|stem| - 1] == term[|term| - 1] && !EndsLower(stem) && !EndsLower(stem + "s")
  {
    var stem := TermStem(term);
    var capital := [ToUpper(term[0])] + term[1..];
    assert stem == "term" + capital;
    assert forall i | 5 <= i < |stem| :: stem[i] == term[i - 4];
    assert |stem| - 4 >= 5 ==> stem[|stem| - 4] == term[|term| - 4];
  }

  lemma TermOfStem(term: string)
    requires IsTerm(term)
    ensures TermOf(TermStem(term)) == Some(term)
  {
    TermsTakeMarks(term);
    StemEnds(term);
    BackToTerm(term, TermStem(term));
  }

  lemma BackToTerm(term: string, stem: string)
    requires term != "" && 'a' <= term[0] <= 'z' && |stem| > 4 && stem[4] == ToUpper(term[0]) && stem[5..] == term[1..]
    ensures [ToLower(stem[4])] + stem[5..] == term
  {
  }

  lemma TermOfEnds(stem: string)
    requires TermOf(stem).Some?
    ensures stem != "" && stem == TermStem(TermOf(stem).value) && stem[|stem| - 1] != 's'
    ensures IsTerm(TermOf(stem).value) && TakesMarks(TermOf(stem).value)
  {
    TermsTakeMarks(TermOf(stem).value);
    StemEnds(TermOf(stem).value);
  }

  function NumberedStem(term: string, plural: bool): string { TermStem(term) + if plural then "s" else "" }

  lemma NumberReadBack(term: string, plural: bool, stem: string)
    requires IsTerm(term)
    ensures NumberOf(stem) == Some((term, plural)) <==> stem == NumberedStem(term, plural)
  {
    if stem == NumberedStem(term, plural) {
      StemReads(term, plural);
    }
    if NumberOf(stem) == Some((term, plural)) {
      ReadsStem(term, plural, stem);
    }
  }

  lemma StemReads(term: string, plural: bool)
    requires IsTerm(term)
    ensures NumberOf(NumberedStem(term, plural)) == Some((term, plural))
  {
    var stem := NumberedStem(term, plural);
    TermOfStem(term);
    if plural {
      assert stem[..|stem| - 1] == TermStem(term) && stem[|stem| - 1] == 's';
      if TermOf(stem).Some? {
        TermOfEnds(stem);
      }
    } else {
      assert stem == TermStem(term);
    }
  }

  lemma ReadsStem(term: string, plural: bool, stem: string)
    requires NumberOf(stem) == Some((term, plural))
    ensures stem == NumberedStem(term, plural)
  {
    if plural {
      TermOfEnds(stem[..|stem| - 1]);
      LastOff(stem);
    } else {
      TermOfEnds(stem);
      assert stem + "" == stem;
    }
  }

  lemma LastOff(stem: string)
    requires stem != "" && stem[|stem| - 1] == 's'
    ensures stem == stem[..|stem| - 1] + "s"
  {
  }

  lemma LowerComesOff(stem: string, running: bool)
    requires !EndsLower(stem)
    ensures
      var name := stem + if running then "Lower" else "";
      EndsLower(name) == running && WithoutLower(name) == stem
  {
    var name := stem + if running then "Lower" else "";
    if running {
      assert name[..|name| - 5] == stem;
    } else {
      assert name == stem;
    }
  }

  // The name of a term's hole, and no other, is read as that hole.
  lemma TermHoleReadBack(h: TermHole, name: string)
    requires IsTerm(h.term)
    ensures TermHoleOf(name) == Some(h) <==> name == TermHoleName(h)
  {
    var stem := NumberedStem(h.term, h.plural);
    StemHasNoLower(h.term, h.plural);
    NumberReadBack(h.term, h.plural, WithoutLower(name));
    LowerComesOff(stem, h.running);
    NameOfParts(name);
  }

  lemma StemHasNoLower(term: string, plural: bool)
    requires IsTerm(term)
    ensures !EndsLower(NumberedStem(term, plural))
  {
    TermsTakeMarks(term);
    StemEnds(term);
    assert TermStem(term) + "" == TermStem(term);
  }

  lemma NameOfParts(name: string)
    ensures name == WithoutLower(name) + if EndsLower(name) then "Lower" else ""
  {
    if EndsLower(name) {
      assert name[|name| - 5..] == "Lower";
    }
  }

  lemma NumberOfEnds(stem: string)
    requires NumberOf(stem).Some?
    ensures |stem| > 5 && IsLetter(stem[|stem| - 1]) && IsTerm(NumberOf(stem).value.0)
  {
    if TermOf(stem).Some? {
      TermOfEnds(stem);
      StemEnds(TermOf(stem).value);
    } else {
      TermOfEnds(stem[..|stem| - 1]);
      StemEnds(TermOf(stem[..|stem| - 1]).value);
    }
  }

  // A term hole's name ends in a letter, so a numbered name is never one.
  lemma TermEndsInLetter(name: string)
    requires IsTermHole(name)
    ensures |name| > 5 && IsLetter(name[|name| - 1]) && IsTerm(TermHoleOf(name).value.term)
  {
    NumberOfEnds(WithoutLower(name));
  }

  // ---- what a term hole reads ----

  // What a workspace calls a term, as it was told.
  datatype Label = Label(singular: string, plural: string)

  type Renames = map<string, Label>

  // Where the catalogue has its own word for a term.
  function TermKey(h: TermHole): string { "term." + h.term + if h.plural then ".plural" else ".singular" }

  // A word inside a sentence loses a capital that stands at its front alone.
  function Lowered(word: string): string {
    if word == "" then ""
    else
      var first, rest := word[0], word[1..];
      if ToLower(first) != first && LowerAll(rest) == rest then [ToLower(first)] + rest else word
  }

  function InRunningText(words: string): string { Join(Each(Split(words, ' '), Lowered), " ") }

  // What a term hole reads: the workspace's own word if it has one, or else the
  // catalogue's. None where the original throws, as neither has.
  function Word(catalogue: Catalogue, renamed: Renames, h: TermHole): Option<string> {
    var chosen :=
      if h.term in renamed then Some(if h.plural then renamed[h.term].plural else renamed[h.term].singular)
      else if TermKey(h) in catalogue then Some(catalogue[TermKey(h)])
      else None;
    if chosen.None? then None
    else Some(if h.running then InRunningText(chosen.value) else Capitalised(chosen.value))
  }

  function WordFor(catalogue: Catalogue, renamed: Renames, name: string): Option<string> {
    if IsTermHole(name) then Word(catalogue, renamed, TermHoleOf(name).value) else None
  }

  // ---- filling ----

  function HoleNames(tokens: seq<Token>): (r: set<string>)
    ensures forall name :: name in r <==> Hole(name) in tokens
  {
    set token | token in tokens && token.Hole? :: token.name
  }

  // Every hole replaced: a term by its word, any other name by its value.
  function FilledToken(token: Token, values: map<string, string>, words: string -> string): string {
    match token
    case Ch(c) => [c]
    case Hole(name) =>
      if IsTermHole(name) then words(name)
      else if name in values then values[name] else ""
  }

  function Filled(tokens: seq<Token>, values: map<string, string>, words: string -> string): string {
    if tokens == [] then "" else FilledToken(tokens[0], values, words) + Filled(tokens[1..], values, words)
  }

  // A message filled with values, or None where the original throws: a hole
  // without a value, or a value without a hole. `words` says what each term
  // hole reads.
  function Fill(message: string, values: Option<map<string, string>>, words: string -> string): Option<string> {
    var tokens := Parse(message, false);
    var every := HoleNames(tokens);
    if every == {} && values.None? then Some(message)
    else
      var holes := set name | name in every && !IsTermHole(name);
      var supplied := if values.Some? then values.value else map[];
      if exists hole | hole in holes :: hole !in supplied then None
      else if exists name | name in supplied :: name !in holes then None
      else Some(Filled(tokens, supplied, words))
  }

  // The words of a catalogue and a workspace. A name without one is never read:
  // `Translate` comes first.
  function TermWords(catalogue: Catalogue, renamed: Renames): string -> string {
    (name: string) => match WordFor(catalogue, renamed, name) case Some(word) => word case None => "?"
  }

  // Every term hole in the message has a word.
  predicate Worded(message: string, catalogue: Catalogue, renamed: Renames) {
    forall name | name in HoleNames(Parse(message, false)) && IsTermHole(name) ::
      WordFor(catalogue, renamed, name).Some?
  }

  // What `t` reads for a key, or None where it throws: a key without an entry,
  // values that do not fit, or a term nobody has a word for.
  function Translate(catalogue: Catalogue, key: string, values: Option<map<string, string>>, renamed: Renames)
    : Option<string>
  {
    if key in catalogue && Worded(catalogue[key], catalogue, renamed)
    then Fill(catalogue[key], values, TermWords(catalogue, renamed))
    else None
  }

  ghost predicate ReadAlike(token: Token, words: string -> string, others: string -> string) {
    token.Hole? && IsTermHole(token.name) ==> others(token.name) == words(token.name)
  }

  // Filling asks for no more of the words than the message's own terms.
  lemma {:induction false} FilledSame(tokens: seq<Token>, values: map<string, string>, words: string -> string,
                                      others: string -> string)
    requires forall token | token in tokens :: ReadAlike(token, words, others)
    ensures Filled(tokens, values, others) == Filled(tokens, values, words)
  {
    if tokens != [] {
      TokenSame(tokens[0], values, words, others);
      FilledSame(tokens[1..], values, words, others);
    }
  }

  lemma TokenSame(token: Token, values: map<string, string>, words: string -> string, others: string -> string)
    requires ReadAlike(token, words, others)
    ensures FilledToken(token, values, others) == FilledToken(token, values, words)
  {
  }

  lemma FillSame(message: string, values: Option<map<string, string>>, words: string -> string,
                 others: string -> string)
    requires forall name | name in HoleNames(Parse(message, false)) && IsTermHole(name) :: others(name) == words(name)
    ensures Fill(message, values, others) == Fill(message, values, words)
  {
    var tokens := Parse(message, false);
    forall token | token in tokens ensures ReadAlike(token, words, others) {
      assert token.Hole? ==> token.name in HoleNames(tokens);
    }
    FilledSame(tokens, if values.Some? then values.value else map[], words, others);
  }

  // Two catalogues that give the message's terms the same words read it alike.
  lemma SameWordsSameText(catalogue: Catalogue, final: Catalogue, key: string, values: Option<map<string, string>>,
                          renamed: Renames)
    requires key in catalogue && key in final && final[key] == catalogue[key]
    requires forall name | name in HoleNames(Parse(catalogue[key], false)) && IsTermHole(name) ::
               WordFor(final, renamed, name) == WordFor(catalogue, renamed, name)
    ensures Translate(final, key, values, renamed) == Translate(catalogue, key, values, renamed)
  {
    FillSame(catalogue[key], values, TermWords(catalogue, renamed), TermWords(final, renamed));
  }
}
