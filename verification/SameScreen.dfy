// What a combined message shows, beside what its run showed. A run on its own
// reads the same, its ends trimmed, exactly when no value or term sits directly
// behind a dollar sign, no literal holds a character reference, and no value is
// named after a term.
module SameScreen {
  import opened Text
  import opened Messages
  import opened JsxTree
  import opened HoleNaming
  import opened Sentences
  import opened Rendering
  import opened Layout

  // The catalogue entry a run is given.
  function Combined(parts: seq<Part>, catalogue: Catalogue): string
    requires Known(parts, catalogue)
  {
    Trim(Collapse(Sentence(parts, catalogue, RunNames(parts))))
  }

  // The values the replacement hands to `t`.
  function RunValues(parts: seq<Part>, values: string -> string): map<string, string> {
    Supplied(Bindings(Expressions(parts), map[]), values)
  }

  // What a caller can read off the run before it is rewritten.
  ghost predicate SafeToCombine(parts: seq<Part>, catalogue: Catalogue)
    requires Known(parts, catalogue)
  {
    && !DollarBefore(RunPieces(parts, catalogue), false)
    && SameInk(parts)
    && SpellNoTerm(Expressions(parts))
  }

  // What the parser and the catalogue give: known, clean messages and legible
  // literals without a brace.
  ghost predicate Sound(parts: seq<Part>, catalogue: Catalogue) {
    && Known(parts, catalogue)
    && CleanParts(parts, catalogue)
    && (forall part | part in parts :: Legible(part))
    && forall part | part in parts && part.Literal? :: forall i | 0 <= i < |part.text| :: NoBrace(part.text[i])
  }

  // The run's pieces as the screen shows them before the rewrite.
  function ScreenPieces(parts: seq<Part>, catalogue: Catalogue): seq<Piece>
    requires Known(parts, catalogue)
  {
    assert forall part | part in SeenParts(parts) :: part.Message? ==> part in parts;
    RunPieces(SeenParts(parts), catalogue)
  }

  // ---- the pieces of a sound run ----

  lemma ParsedHolesAreNames(message: string, dollar: bool)
    ensures forall token | token in Parse(message, dollar) :: token.Hole? ==> IsHoleName(token.name)
    decreases |message|
  {
    if message != "" {
      var hole := LeadingHole(message);
      if !dollar && hole.Some? {
        ParsedHolesAreNames(message[|hole.value| + 2..], false);
      } else {
        ParsedHolesAreNames(message[1..], message[0] == '$');
      }
    }
  }

  lemma MessagePiecesWellNamed(message: string, names: Names)
    requires Clean(message)
    ensures WellNamed(MessagePieces(message), names)
  {
    ParsedHolesAreNames(message, false);
    forall p | p in MessagePieces(message) ensures WellNamedPiece(p, names) {
      var i :| 0 <= i < |MessagePieces(message)| && MessagePieces(message)[i] == p;
      assert Parse(message, false)[i] in Parse(message, false);
    }
  }

  // Every piece of a sound run is read as it was meant, and its slots are the
  // run's expressions.
  lemma {:induction false} RunPiecesWellNamed(parts: seq<Part>, catalogue: Catalogue, names: Names)
    requires Sound(parts, catalogue)
    requires forall e | e in Expressions(parts) :: e in names && IsHoleName(names[e])
    ensures WellNamed(RunPieces(parts, catalogue), names)
    ensures forall e :: Slot(e) in RunPieces(parts, catalogue) <==> e in Expressions(parts)
  {
    if parts != [] {
      RunPiecesWellNamed(parts[1..], catalogue, names);
      assert parts[0] in parts;
      assert parts[0].Value? ==> parts[0].expression in Expressions(parts);
      PartPiecesWellNamed(parts[0], catalogue, names);
      var head, rest := PartPieces(parts[0], catalogue), RunPieces(parts[1..], catalogue);
      assert RunPieces(parts, catalogue) == head + rest;
    }
  }

  lemma PartPiecesWellNamed(part: Part, catalogue: Catalogue, names: Names)
    requires part.Message? ==> part.key in catalogue && Clean(catalogue[part.key])
    requires part.Literal? ==> forall i | 0 <= i < |part.text| :: NoBrace(part.text[i])
    requires part.Value? ==> part.expression in names && IsHoleName(names[part.expression])
    ensures WellNamed(PartPieces(part, catalogue), names)
    ensures forall e :: Slot(e) in PartPieces(part, catalogue) <==> part == Value(e)
  {
    if part.Message? {
      MessagePiecesWellNamed(catalogue[part.key], names);
    }
  }

  // The combined entry parses to its own tokens, but for guarded holes.
  lemma CombinedParses(parts: seq<Part>, catalogue: Catalogue)
    requires Sound(parts, catalogue)
    ensures
      var names := RunNames(parts);
      var tidy := Tidy(RunPieces(parts, catalogue));
      && WellNamed(tidy, names) && Named(tidy, names)
      && Parse(Combined(parts, catalogue), false) == Guarded(TokensOf(tidy, names), false)
  {
    var names := RunNames(parts);
    var ps := RunPieces(parts, catalogue);
    NameAllKeepsDistinct(Expressions(parts), map[]);
    RunPiecesWellNamed(parts, catalogue, names);
    SentenceIsSpelled(parts, catalogue, names);
    SpelledTidy(ps, names);
    var tidy := Tidy(ps);
    SpelledIsWritten(tidy, names);
    var tokens := TokensOf(tidy, names);
    assert Plain(tokens) by {
      forall i | 0 <= i < |tokens|
        ensures match tokens[i] case Ch(c) => NoBrace(c) case Hole(name) => IsHoleName(name)
      {
        assert WellNamedPiece(tidy[i], names);
      }
    }
    ParseWritten(tokens, false);
  }

  lemma HolesOfTokens(ps: seq<Piece>, names: Names)
    requires Named(ps, names)
    ensures forall name :: (name in HoleNames(TokensOf(ps, names))
                            <==> (Term(name) in ps || exists e :: Slot(e) in ps && names[e] == name))
  {
    var tokens := TokensOf(ps, names);
    forall name | name in HoleNames(tokens) ensures Term(name) in ps || exists e :: Slot(e) in ps && names[e] == name {
      var i :| 0 <= i < |tokens| && tokens[i] == Hole(name);
      assert ps[i] in ps;
    }
    forall name | Term(name) in ps ensures Hole(name) in tokens {
      var i :| 0 <= i < |ps| && ps[i] == Term(name);
      assert tokens[i] == Hole(name);
    }
    forall e | Slot(e) in ps ensures Hole(names[e]) in tokens {
      var i :| 0 <= i < |ps| && ps[i] == Slot(e);
      assert tokens[i] == Hole(names[e]);
    }
  }

  lemma FillAccepts(message: string, supplied: map<string, string>, words: string -> string)
    requires forall name | name in HoleNames(Parse(message, false)) && !IsTermHole(name) :: name in supplied
    requires forall name | name in supplied :: name in HoleNames(Parse(message, false)) && !IsTermHole(name)
    ensures Fill(message, Some(supplied), words) == Some(Filled(Parse(message, false), supplied, words))
  {
  }

  lemma FillAccepted(message: string, supplied: map<string, string>, words: string -> string)
    requires Fill(message, Some(supplied), words).Some?
    ensures Fill(message, Some(supplied), words).value == Filled(Parse(message, false), supplied, words)
    ensures forall name | name in supplied :: !IsTermHole(name)
  {
    var holes := set name | name in HoleNames(Parse(message, false)) && !IsTermHole(name);
    assert forall name | name in supplied :: name in holes;
  }

  // ---- a safe run reads the same ----

  // In a safe run the entry's holes are the run's values and some terms.
  lemma SafeHoles(parts: seq<Part>, catalogue: Catalogue)
    requires Sound(parts, catalogue) && !DollarBefore(RunPieces(parts, catalogue), false)
    ensures
      var names := RunNames(parts);
      var tidy := Tidy(RunPieces(parts, catalogue));
      && WellNamed(tidy, names) && Named(tidy, names)
      && Parse(Combined(parts, catalogue), false) == TokensOf(tidy, names)
      && forall e :: e in names <==> Slot(e) in tidy
  {
    var names := RunNames(parts);
    var ps := RunPieces(parts, catalogue);
    CombinedParses(parts, catalogue);
    DollarTidy(ps);
    DollarTokens(Tidy(ps), names, false);
    GuardedIsIdentity(TokensOf(Tidy(ps), names), false);
    NameAllKeepsDistinct(Expressions(parts), map[]);
    RunPiecesWellNamed(parts, catalogue, names);
    TidyKeeps(ps);
  }

  // The combined message in the replacement, with its holes filled.
  function Fused(parts: seq<Part>, catalogue: Catalogue, values: string -> string,
                 words: string -> string): Option<string>
    requires Known(parts, catalogue)
  {
    Fill(Combined(parts, catalogue), Some(RunValues(parts, values)), words)
  }

  // Filled, the entry reads like the run's pieces if no hole is guarded or
  // taken for a term.
  lemma SafeFills(parts: seq<Part>, catalogue: Catalogue, values: string -> string, words: string -> string)
    requires Sound(parts, catalogue) && !DollarBefore(RunPieces(parts, catalogue), false)
    requires NamesNoTerm(RunNames(parts))
    ensures Fused(parts, catalogue, values, words) == Some(Spoken(Tidy(RunPieces(parts, catalogue)), values, words))
  {
    var names := RunNames(parts);
    var tidy := Tidy(RunPieces(parts, catalogue));
    var supplied := RunValues(parts, values);
    var message := Combined(parts, catalogue);
    SafeHoles(parts, catalogue);
    SuppliedByRun(parts, values);
    HolesOfTokens(tidy, names);
    forall p | p in tidy ensures FillsAs(p, names, supplied, values) {
      assert WellNamedPiece(p, names);
    }
    FilledIsSpoken(tidy, names, supplied, values, words);
    forall name | name in supplied ensures name in HoleNames(Parse(message, false)) && !IsTermHole(name) {
      var e :| e in names && names[e] == name;
      assert Slot(e) in tidy;
    }
    forall name | name in HoleNames(Parse(message, false)) && !IsTermHole(name) ensures name in supplied {
      assert Term(name) in tidy ==> WellNamedPiece(Term(name), names);
    }
    FillAccepts(message, supplied, words);
  }

  lemma SafeReadsTheSame(parts: seq<Part>, catalogue: Catalogue, values: string -> string, words: string -> string)
    requires Sound(parts, catalogue) && SafeToCombine(parts, catalogue)
    ensures Fused(parts, catalogue, values, words) == Some(Spoken(Tidy(ScreenPieces(parts, catalogue)), values, words))
  {
    TidySeen(parts, catalogue);
    HolesAvoidTermsExactly(Expressions(parts));
    SafeFills(parts, catalogue, values, words);
  }

  // ---- an unsafe run does not ----

  // How much ink tokens leave when every value is empty and every word one
  // character.
  function InkOf(token: Token): nat {
    match token
    case Ch(c) => if IsSpace(c) then 0 else 1
    case Hole(name) => if IsTermHole(name) then 1 else 0
  }

  function InkCount(tokens: seq<Token>): nat {
    if tokens == [] then 0 else InkOf(tokens[0]) + InkCount(tokens[1..])
  }

  lemma {:induction false} InkCountConcat(left: seq<Token>, right: seq<Token>)
    ensures InkCount(left + right) == InkCount(left) + InkCount(right)
  {
    if left == [] {
      assert left + right == right;
    } else {
      assert (left + right)[1..] == left[1..] + right;
      InkCountConcat(left[1..], right);
    }
  }

  lemma {:induction false} InkCountChars(s: string)
    ensures InkCount(Chars(s)) == |Ink(s)|
  {
    if s != "" {
      InkCountChars(s[1..]);
      assert Chars(s)[1..] == Chars(s[1..]);
    }
  }

  lemma BracedInk(name: string)
    ensures |Ink(Braced(name))| > 1
  {
    InkConcat("{" + name, "}");
    InkConcat("{", name);
    assert Ink("}") == "}" + Ink("") && Ink("{") == "{" + Ink("");
  }

  // A guarded hole leaves its spelling on the screen.
  lemma {:induction false} GuardedGrows(tokens: seq<Token>, dollar: bool)
    ensures InkCount(Guarded(tokens, dollar)) >= InkCount(tokens)
    ensures DollarHole(tokens, dollar) ==> InkCount(Guarded(tokens, dollar)) > InkCount(tokens)
  {
    if tokens != [] {
      match tokens[0]
      case Ch(c) =>
        GuardedGrows(tokens[1..], c == '$');
        InkCountConcat([tokens[0]], Guarded(tokens[1..], c == '$'));
      case Hole(name) =>
        GuardedGrows(tokens[1..], false);
        var head := if dollar then Chars(Braced(name)) else [tokens[0]];
        InkCountChars(Braced(name));
        BracedInk(name);
        InkCountConcat(head, Guarded(tokens[1..], false));
    }
  }

  // Every value empty, and every word one character.
  function Silent(name: string): string { "" }

  function Marked(name: string): string { "x" }

  ghost predicate Hush(values: string -> string) { forall e :: values(e) == "" }

  ghost predicate Brief(words: string -> string) {
    forall name :: |words(name)| == 1 && !IsSpace(words(name)[0])
  }

  lemma BriefInk(word: string)
    requires |word| == 1 && !IsSpace(word[0])
    ensures |Ink(word)| == 1
  {
    assert word[1..] == "";
  }

  lemma InkOfToken(token: Token, supplied: map<string, string>, words: string -> string)
    requires Brief(words) && forall name | name in supplied :: supplied[name] == ""
    ensures |Ink(FilledToken(token, supplied, words))| == InkOf(token)
  {
    match token
    case Ch(c) => assert [c][1..] == "";
    case Hole(name) => BriefInk(words(name));
  }

  lemma {:induction false} SilentFilling(tokens: seq<Token>, supplied: map<string, string>, words: string -> string)
    requires Brief(words) && forall name | name in supplied :: supplied[name] == ""
    ensures |Ink(Filled(tokens, supplied, words))| == InkCount(tokens)
  {
    if tokens != [] {
      SilentFilling(tokens[1..], supplied, words);
      InkOfToken(tokens[0], supplied, words);
      InkConcat(FilledToken(tokens[0], supplied, words), Filled(tokens[1..], supplied, words));
    }
  }

  lemma InkOfPiece(p: Piece, names: Names, values: string -> string, words: string -> string)
    requires WellNamedPiece(p, names) && Hush(values) && Brief(words)
    ensures |Ink(SpokenPiece(p, values, words))| <= InkOf(TokenOf(p, names))
  {
    match p
    case Char(c) => assert [c][1..] == "";
    case Term(name) => BriefInk(words(name));
    case Slot(e) =>
  }

  lemma {:induction false} SilentSpeaking(ps: seq<Piece>, names: Names, values: string -> string,
                                          words: string -> string)
    requires WellNamed(ps, names) && Named(ps, names) && Hush(values) && Brief(words)
    ensures |Ink(Spoken(ps, values, words))| <= InkCount(TokensOf(ps, names))
  {
    if ps != [] {
      assert ps[0] in ps;
      SilentSpeaking(ps[1..], names, values, words);
      InkOfPiece(ps[0], names, values, words);
      InkConcat(SpokenPiece(ps[0], values, words), Spoken(ps[1..], values, words));
      assert TokensOf(ps, names)[1..] == TokensOf(ps[1..], names);
    }
  }

  // In silence a combined message never shows less ink than its run's pieces,
  // and with a hole behind a dollar sign it shows more.
  lemma CombinedShowsNoLess(parts: seq<Part>, catalogue: Catalogue, supplied: map<string, string>,
                            values: string -> string, words: string -> string)
    requires Sound(parts, catalogue) && forall name | name in supplied :: supplied[name] == ""
    requires Hush(values) && Brief(words)
    ensures
      var fused := |Ink(Filled(Parse(Combined(parts, catalogue), false), supplied, words))|;
      var tidy := |Ink(Spoken(Tidy(RunPieces(parts, catalogue)), values, words))|;
      fused >= tidy && (DollarBefore(RunPieces(parts, catalogue), false) ==> fused > tidy)
  {
    var names := RunNames(parts);
    var tidy := Tidy(RunPieces(parts, catalogue));
    CombinedParses(parts, catalogue);
    DollarTidy(RunPieces(parts, catalogue));
    DollarTokens(tidy, names, false);
    var tokens := TokensOf(tidy, names);
    GuardedGrows(tokens, false);
    SilentFilling(Guarded(tokens, false), supplied, words);
    SilentSpeaking(tidy, names, values, words);
  }

  // Tidying and wide blanks leave the ink alone, and a literal that is not
  // faithful shows less than it adds.
  lemma {:induction false} ScreenShowsNoMore(parts: seq<Part>, catalogue: Catalogue, values: string -> string,
                                              words: string -> string)
    requires Known(parts, catalogue) && forall part | part in parts :: Legible(part)
    ensures
      var shown := |Ink(Spoken(ScreenPieces(parts, catalogue), values, words))|;
      var added := |Ink(Spoken(RunPieces(parts, catalogue), values, words))|;
      shown <= added && (!SameInk(parts) ==> shown < added)
  {
    if parts != [] {
      var rest := parts[1..];
      ScreenShowsNoMore(rest, catalogue, values, words);
      assert parts == [parts[0]] + rest;
      PartShowsNoMore(parts[0], catalogue, values, words);
      ScreenHead(parts, catalogue);
      InkOfBoth(PartPieces(parts[0], catalogue), RunPieces(rest, catalogue), values, words);
      InkOfBoth(PartPieces(Seen(parts[0]), catalogue), ScreenPieces(rest, catalogue), values, words);
    }
  }

  lemma ScreenHead(parts: seq<Part>, catalogue: Catalogue)
    requires parts != [] && Known(parts, catalogue) && Known(parts[1..], catalogue)
    requires parts[0].Message? ==> parts[0].key in catalogue
    ensures ScreenPieces(parts, catalogue)
        == PartPieces(Seen(parts[0]), catalogue) + ScreenPieces(parts[1..], catalogue)
  {
    assert SeenParts(parts)[1..] == SeenParts(parts[1..]);
  }

  lemma InkOfBoth(a: seq<Piece>, b: seq<Piece>, values: string -> string, words: string -> string)
    ensures |Ink(Spoken(a + b, values, words))| == |Ink(Spoken(a, values, words))| + |Ink(Spoken(b, values, words))|
  {
    SpokenConcat(a, b, values, words);
    InkConcat(Spoken(a, values, words), Spoken(b, values, words));
  }

  lemma PartShowsNoMore(part: Part, catalogue: Catalogue, values: string -> string, words: string -> string)
    requires part.Message? ==> part.key in catalogue
    requires Legible(part)
    ensures
      var shown := |Ink(Spoken(PartPieces(Seen(part), catalogue), values, words))|;
      var added := |Ink(Spoken(PartPieces(part, catalogue), values, words))|;
      shown <= added && (!Faithful(part) ==> shown < added)
  {
    if part.Literal? {
      SpokenLetters(part.text, values, words);
      SpokenLetters(part.shown, values, words);
      if part.text == " " && AllSpace(part.shown) {
        InkSpace(part.shown);
      }
    }
  }

  // In silence an unsafe run throws, or shows more ink than it did.
  lemma UnsafeShowsMore(parts: seq<Part>, catalogue: Catalogue, values: string -> string, words: string -> string)
    requires Sound(parts, catalogue) && Hush(values) && Brief(words)
    ensures
      var fused := Fused(parts, catalogue, values, words);
      var shown := Spoken(ScreenPieces(parts, catalogue), values, words);
      && (fused.Some? ==> |Ink(fused.value)| >= |Ink(shown)|)
      && (!SafeToCombine(parts, catalogue) ==> fused == None || |Ink(fused.value)| > |Ink(shown)|)
  {
    var names := RunNames(parts);
    var supplied := RunValues(parts, values);
    SuppliedByRun(parts, values);
    HolesAvoidTermsExactly(Expressions(parts));
    assert forall name | name in supplied :: supplied[name] == "";
    if Fused(parts, catalogue, values, words).Some? {
      FillAccepted(Combined(parts, catalogue), supplied, words);
      forall e | e in names ensures !IsTermHole(names[e]) {
        assert names[e] in supplied;
      }
      CombinedShowsNoLess(parts, catalogue, supplied, values, words);
      ScreenShowsNoMore(parts, catalogue, values, words);
      TidyKeepsInk(RunPieces(parts, catalogue), values, words);
    }
  }

  // ---- the law of one run ----

  // Before: the children, rendered one by one, show the run's pieces.
  lemma ScreenBefore(parts: seq<Part>, catalogue: Catalogue, values: string -> string, words: string -> string)
    requires Sound(parts, catalogue)
    ensures Screen(parts, catalogue, values, words) == Some(Spoken(ScreenPieces(parts, catalogue), values, words))
  {
    ScreenIsSpoken(parts, catalogue, values, words);
  }

  // The combined message reads like the run's pieces, tidied, whatever the
  // values and words.
  ghost predicate AlwaysReadsAlike(parts: seq<Part>, catalogue: Catalogue)
    requires Known(parts, catalogue)
  {
    forall values, words ::
      Fused(parts, catalogue, values, words) == Some(Spoken(Tidy(ScreenPieces(parts, catalogue)), values, words))
  }

  // After: a run on its own, its ends trimmed, reads the same if and only if it
  // is safe to combine.
  lemma SameScreenExactly(parts: seq<Part>, catalogue: Catalogue)
    requires Sound(parts, catalogue)
    ensures SafeToCombine(parts, catalogue) <==> AlwaysReadsAlike(parts, catalogue)
  {
    if SafeToCombine(parts, catalogue) {
      forall values, words
        ensures Fused(parts, catalogue, values, words)
            == Some(Spoken(Tidy(ScreenPieces(parts, catalogue)), values, words))
      {
        SafeReadsTheSame(parts, catalogue, values, words);
      }
    } else {
      UnsafeShowsMore(parts, catalogue, Silent, Marked);
      TidyKeepsInk(ScreenPieces(parts, catalogue), Silent, Marked);
      InSilence(parts, catalogue, Silent, Marked);
    }
  }

  lemma InSilence(parts: seq<Part>, catalogue: Catalogue, values: string -> string, words: string -> string)
    requires Known(parts, catalogue)
    requires Fused(parts, catalogue, values, words)
        != Some(Spoken(Tidy(ScreenPieces(parts, catalogue)), values, words))
    ensures !AlwaysReadsAlike(parts, catalogue)
  {
  }
}
