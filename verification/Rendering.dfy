// Whether a combined message puts on the screen what its run put there
// (scripts/recombine-messages.ts read together with translate in
// packages/ui/src/i18n/catalogue.ts).
module Rendering {
  import opened Text
  import opened Messages
  import opened JsxTree
  import opened HoleNaming
  import opened Sentences

  // ---- pieces of a run ----

  function PieceOf(token: Token): Piece {
    match token case Ch(c) => Char(c) case Hole(name) => Term(name)
  }

  function MessagePieces(message: string): (r: seq<Piece>)
    ensures |r| == |Parse(message, false)|
    ensures forall i | 0 <= i < |r| :: r[i] == PieceOf(Parse(message, false)[i])
  {
    var tokens := Parse(message, false);
    seq(|tokens|, i requires 0 <= i < |tokens| => PieceOf(tokens[i]))
  }

  // A message that `t(key)` can render on its own: no brace in it but those of
  // term holes.
  predicate Clean(message: string) {
    forall token | token in Parse(message, false) ::
      (token.Ch? ==> NoBrace(token.c)) && (token.Hole? ==> IsTermHole(token.name))
  }

  function Letters(s: string): (r: seq<Piece>)
    ensures |r| == |s|
    ensures forall i | 0 <= i < |s| :: r[i] == Char(s[i])
  {
    seq(|s|, i requires 0 <= i < |s| => Char(s[i]))
  }

  predicate Known(parts: seq<Part>, catalogue: Catalogue) {
    forall part | part in parts :: part.Message? ==> part.key in catalogue
  }

  // What a part adds to the sentence.
  function PartPieces(part: Part, catalogue: Catalogue): seq<Piece>
    requires part.Message? ==> part.key in catalogue
  {
    match part
    case Literal(text, _) => Letters(text)
    case Message(key) => MessagePieces(catalogue[key])
    case Value(e) => [Slot(e)]
    case Barrier => []
  }

  function RunPieces(parts: seq<Part>, catalogue: Catalogue): seq<Piece>
    requires Known(parts, catalogue)
  {
    if parts == [] then []
    else PartPieces(parts[0], catalogue) + RunPieces(parts[1..], catalogue)
  }

  // The part as the screen shows it: a literal as it stands.
  function Seen(part: Part): Part {
    if part.Literal? then Literal(part.shown, part.shown) else part
  }

  function SeenParts(parts: seq<Part>): (r: seq<Part>)
    ensures |r| == |parts|
    ensures forall i | 0 <= i < |parts| :: r[i] == Seen(parts[i])
  {
    seq(|parts|, i requires 0 <= i < |parts| => Seen(parts[i]))
  }

  function Expressions(parts: seq<Part>): (r: seq<string>)
    ensures forall e :: e in r <==> Value(e) in parts
  {
    if parts == [] then []
    else (if parts[0].Value? then [parts[0].expression] else []) + Expressions(parts[1..])
  }

  // The names the run's values are given.
  function RunNames(parts: seq<Part>): Names { NameAll(Expressions(parts), map[]) }

  // What one part adds to the sentence. A run is given up before a key without
  // an entry is read, so that case adds nothing.
  function PartText(part: Part, catalogue: Catalogue, names: Names): string {
    match part
    case Literal(text, _) => text
    case Message(key) => if key in catalogue then catalogue[key] else ""
    case Value(e) => if e in names then Braced(names[e]) else ""
    case Barrier => ""
  }

  // The sentence as the loop over the run builds it.
  function Sentence(parts: seq<Part>, catalogue: Catalogue, names: Names): string {
    if parts == [] then ""
    else PartText(parts[0], catalogue, names) + Sentence(parts[1..], catalogue, names)
  }

  lemma {:induction false} SpelledLetters(s: string, names: Names)
    ensures Named(Letters(s), names) && Spelled(Letters(s), names) == s
  {
    if s != "" {
      SpelledLetters(s[1..], names);
      assert Letters(s)[1..] == Letters(s[1..]);
    }
  }

  lemma {:induction false} SpelledTokens(ps: seq<Piece>, tokens: seq<Token>, names: Names)
    requires |ps| == |tokens| && forall i | 0 <= i < |ps| :: ps[i] == PieceOf(tokens[i])
    ensures Named(ps, names) && Spelled(ps, names) == Written(tokens)
  {
    if ps != [] {
      SpelledTokens(ps[1..], tokens[1..], names);
    }
  }

  lemma SpelledMessage(message: string, names: Names)
    ensures Named(MessagePieces(message), names)
    ensures Spelled(MessagePieces(message), names) == message
  {
    SpelledTokens(MessagePieces(message), Parse(message, false), names);
    WrittenParse(message, false);
  }

  lemma {:induction false} SentenceIsSpelled(parts: seq<Part>, catalogue: Catalogue, names: Names)
    requires Known(parts, catalogue)
    requires forall e | e in Expressions(parts) :: e in names
    ensures Named(RunPieces(parts, catalogue), names)
    ensures Sentence(parts, catalogue, names) == Spelled(RunPieces(parts, catalogue), names)
  {
    if parts != [] {
      SentenceIsSpelled(parts[1..], catalogue, names);
      var head := PartPieces(parts[0], catalogue);
      match parts[0] {
        case Literal(text, _) => SpelledLetters(text, names);
        case Message(key) => SpelledMessage(catalogue[key], names);
        case Value(e) =>
          assert e in Expressions(parts);
          SpelledOne(Slot(e), names);
        case Barrier =>
      }
      SpelledConcat(head, RunPieces(parts[1..], catalogue), names);
    }
  }

  // ---- the holes handed to the combined message ----

  // One entry of the object literal in the replacement.
  datatype Binding = Binding(name: string, expression: string)

  function Bindings(expressions: seq<string>, taken: Taken): seq<Binding> {
    if expressions == [] then []
    else
      var e := expressions[0];
      var name := HoleFor(e, taken);
      (if e in taken then [] else [Binding(name, e)]) + Bindings(expressions[1..], taken[e := name])
  }

  // What the object literal holds once evaluated: a repeated name would keep
  // its last value.
  function Supplied(bindings: seq<Binding>, values: string -> string): map<string, string> {
    if bindings == [] then map[]
    else map[bindings[0].name := values(bindings[0].expression)] + Supplied(bindings[1..], values)
  }

  lemma {:induction false} BindingsAreNames(expressions: seq<string>, taken: Taken)
    ensures
      var names := NameAll(expressions, taken);
      && (forall b | b in Bindings(expressions, taken) :: b.expression in names && b.name == names[b.expression])
      && (forall e | e in names && e !in taken :: Binding(names[e], e) in Bindings(expressions, taken))
  {
    if expressions != [] {
      var e := expressions[0];
      BindingsAreNames(expressions[1..], taken[e := HoleFor(e, taken)]);
    }
  }

  lemma {:induction false} SuppliedFrom(bindings: seq<Binding>, values: string -> string)
    ensures forall b | b in bindings :: b.name in Supplied(bindings, values)
    ensures forall name | name in Supplied(bindings, values) ::
              exists b :: b in bindings && b.name == name && Supplied(bindings, values)[name] == values(b.expression)
  {
    if bindings != [] {
      SuppliedFrom(bindings[1..], values);
      assert bindings[0] in bindings;
      forall name | name in Supplied(bindings, values)
        ensures exists b :: b in bindings && b.name == name && Supplied(bindings, values)[name] == values(b.expression)
      {
        if name in Supplied(bindings[1..], values) {
          var b :| b in bindings[1..] && b.name == name
              && Supplied(bindings[1..], values)[name] == values(b.expression);
          assert b in bindings;
        }
      }
    }
  }

  // Every hole is bound once, to its own expression, and nothing else is bound.
  lemma SuppliedByRun(parts: seq<Part>, values: string -> string)
    ensures
      var names := RunNames(parts);
      var supplied := Supplied(Bindings(Expressions(parts), map[]), values);
      && Distinct(names)
      && (forall e | e in names :: names[e] in supplied && supplied[names[e]] == values(e))
      && (forall name | name in supplied :: exists e :: e in names && names[e] == name)
  {
    var names := RunNames(parts);
    var bindings := Bindings(Expressions(parts), map[]);
    NameAllKeepsDistinct(Expressions(parts), map[]);
    BindingsAreNames(Expressions(parts), map[]);
    SuppliedFrom(bindings, values);
    forall e | e in names
      ensures names[e] in Supplied(bindings, values) && Supplied(bindings, values)[names[e]] == values(e)
    {
      assert Binding(names[e], e) in bindings;
    }
  }

  // ---- what is on the screen ----

  // Pieces read out: terms by their words, slots by their values.
  function SpokenPiece(p: Piece, values: string -> string, words: string -> string): string {
    match p case Char(c) => [c] case Term(name) => words(name) case Slot(e) => values(e)
  }

  function Spoken(ps: seq<Piece>, values: string -> string, words: string -> string): string {
    if ps == [] then "" else SpokenPiece(ps[0], values, words) + Spoken(ps[1..], values, words)
  }

  lemma {:induction false} SpokenConcat(left: seq<Piece>, right: seq<Piece>, values: string -> string,
                                        words: string -> string)
    ensures Spoken(left + right, values, words) == Spoken(left, values, words) + Spoken(right, values, words)
  {
    if left == [] {
      assert left + right == right;
    } else {
      assert (left + right)[1..] == left[1..] + right;
      SpokenConcat(left[1..], right, values, words);
    }
  }

  // The run before: each child on its own. None where a message throws.
  function Screen(parts: seq<Part>, catalogue: Catalogue, values: string -> string,
                  words: string -> string): Option<string>
    requires Known(parts, catalogue)
  {
    if parts == [] then Some("")
    else
      var head := match parts[0]
        case Literal(_, shown) => Some(shown)
        case Message(key) => Fill(catalogue[key], None, words)
        case Value(e) => Some(values(e))
        case Barrier => Some("");
      var rest := Screen(parts[1..], catalogue, values, words);
      if head.None? || rest.None? then None else Some(head.value + rest.value)
  }

  lemma {:induction false} SpokenLetters(s: string, values: string -> string, words: string -> string)
    ensures Spoken(Letters(s), values, words) == s
  {
    if s != "" {
      SpokenLetters(s[1..], values, words);
      assert Letters(s)[1..] == Letters(s[1..]);
    }
  }

  // A piece the filled message shows as it is read out.
  ghost predicate FillsAs(p: Piece, names: Names, supplied: map<string, string>, values: string -> string) {
    match p
    case Char(_) => true
    case Term(name) => IsTermHole(name)
    case Slot(e) =>
      e in names && !IsTermHole(names[e]) && names[e] in supplied && supplied[names[e]] == values(e)
  }

  // Filling tokens is reading out the pieces they stand for.
  lemma {:induction false} FilledIsSpoken(
      ps: seq<Piece>, names: Names, supplied: map<string, string>, values: string -> string, words: string -> string)
    requires Named(ps, names)
    requires forall p | p in ps :: FillsAs(p, names, supplied, values)
    ensures Filled(TokensOf(ps, names), supplied, words) == Spoken(ps, values, words)
  {
    if ps != [] {
      FilledIsSpoken(ps[1..], names, supplied, values, words);
      assert TokensOf(ps, names)[1..] == TokensOf(ps[1..], names);
      assert ps[0] in ps;
    }
  }

  lemma FillClean(message: string, words: string -> string)
    requires Clean(message)
    ensures
      var tokens := Parse(message, false);
      Fill(message, None, words) == Some(if HoleNames(tokens) == {} then message else Filled(tokens, map[], words))
  {
  }

  lemma MessageOnItsOwn(message: string, values: string -> string, words: string -> string)
    requires Clean(message)
    ensures Fill(message, None, words) == Some(Spoken(MessagePieces(message), values, words))
  {
    FillClean(message, words);
    CleanIsSpoken(MessagePieces(message), Parse(message, false), values, words);
    SpelledMessage(message, map[]);
  }

  lemma CleanIsSpoken(ps: seq<Piece>, tokens: seq<Token>, values: string -> string, words: string -> string)
    requires |ps| == |tokens| && forall i | 0 <= i < |ps| :: ps[i] == PieceOf(tokens[i])
    requires forall token | token in tokens && token.Hole? :: IsTermHole(token.name)
    ensures Filled(tokens, map[], words) == Spoken(ps, values, words)
    ensures HoleNames(tokens) == {} ==> Named(ps, map[]) && Spoken(ps, values, words) == Spelled(ps, map[])
  {
    forall p | p in ps ensures FillsAs(p, map[], map[], values) {
      var i :| 0 <= i < |ps| && ps[i] == p;
      assert tokens[i] in tokens;
    }
    assert TokensOf(ps, map[]) == tokens;
    FilledIsSpoken(ps, map[], map[], values, words);
    if HoleNames(tokens) == {} {
      forall i | 0 <= i < |ps| ensures ps[i].Char? {
        assert Hole(match tokens[i] case Hole(name) => name case Ch(_) => "") !in tokens;
        assert tokens[i] in tokens;
      }
      SpokenChars(ps, values, words);
    }
  }

  lemma {:induction false} SpokenChars(ps: seq<Piece>, values: string -> string, words: string -> string)
    requires forall i | 0 <= i < |ps| :: ps[i].Char?
    ensures Named(ps, map[]) && Spoken(ps, values, words) == Spelled(ps, map[])
  {
    if ps != [] {
      SpokenChars(ps[1..], values, words);
    }
  }

  ghost predicate CleanParts(parts: seq<Part>, catalogue: Catalogue)
    requires Known(parts, catalogue)
  {
    forall part | part in parts :: part.Message? ==> Clean(catalogue[part.key])
  }

  // Before: the screen shows the run's pieces, literals as they stand.
  lemma {:induction false} ScreenIsSpoken(parts: seq<Part>, catalogue: Catalogue, values: string -> string,
                                          words: string -> string)
    requires Known(parts, catalogue) && CleanParts(parts, catalogue)
    ensures Known(SeenParts(parts), catalogue)
    ensures Screen(parts, catalogue, values, words)
         == Some(Spoken(RunPieces(SeenParts(parts), catalogue), values, words))
  {
    if parts != [] {
      ScreenIsSpoken(parts[1..], catalogue, values, words);
      var seen := SeenParts(parts);
      assert seen[1..] == SeenParts(parts[1..]);
      assert parts[0] in parts;
      match parts[0] {
        case Literal(_, shown) => SpokenLetters(shown, values, words);
        case Message(key) => MessageOnItsOwn(catalogue[key], values, words);
        case Value(e) => assert [Slot(e)][1..] == [];
        case Barrier =>
      }
      SpokenConcat(PartPieces(seen[0], catalogue), RunPieces(seen[1..], catalogue), values, words);
    }
  }

  // The literal adds to the sentence what it shows, but for a stretch of
  // whitespace that is written as one space.
  predicate Faithful(part: Part) {
    part.Literal? ==> part.text == part.shown || (part.text == " " && part.shown != "" && AllSpace(part.shown))
  }

  ghost predicate SameInk(parts: seq<Part>) { forall part | part in parts :: Faithful(part) }

  // What the parser gives: a literal that is not faithful holds a character
  // reference, and so shows fewer characters than it adds.
  predicate Legible(part: Part) {
    Faithful(part) || |Ink(part.shown)| < |Ink(part.text)|
  }

  lemma {:induction false} SqueezeSeen(before: seq<Piece>, parts: seq<Part>, catalogue: Catalogue)
    requires Known(parts, catalogue) && SameInk(parts)
    ensures Known(SeenParts(parts), catalogue)
    ensures Squeeze(before + RunPieces(parts, catalogue)) == Squeeze(before + RunPieces(SeenParts(parts), catalogue))
    decreases |parts|
  {
    if parts != [] {
      var seen := SeenParts(parts);
      assert seen[1..] == SeenParts(parts[1..]);
      assert parts[0] in parts;
      var head, shown := PartPieces(parts[0], catalogue), PartPieces(seen[0], catalogue);
      var rest, seenRest := RunPieces(parts[1..], catalogue), RunPieces(seen[1..], catalogue);
      SqueezeOne(before, parts[0], rest, catalogue);
      SqueezeSeen(before + shown, parts[1..], catalogue);
      Regroup(before, head, rest);
      Regroup(before, shown, seenRest);
    }
  }

  lemma SqueezeOne(before: seq<Piece>, part: Part, rest: seq<Piece>, catalogue: Catalogue)
    requires part.Message? ==> part.key in catalogue
    requires Faithful(part)
    ensures Squeeze(before + PartPieces(part, catalogue) + rest)
        == Squeeze(before + PartPieces(Seen(part), catalogue) + rest)
  {
    if part.Literal? && part.text != part.shown {
      SqueezeBlank(before, Letters(part.text), Letters(part.shown), rest);
    }
  }

  lemma TidySeen(parts: seq<Part>, catalogue: Catalogue)
    requires Known(parts, catalogue) && SameInk(parts)
    ensures Known(SeenParts(parts), catalogue)
    ensures Tidy(RunPieces(parts, catalogue)) == Tidy(RunPieces(SeenParts(parts), catalogue))
  {
    SqueezeSeen([], parts, catalogue);
    assert [] + RunPieces(parts, catalogue) == RunPieces(parts, catalogue);
    assert [] + RunPieces(SeenParts(parts), catalogue) == RunPieces(SeenParts(parts), catalogue);
  }
}
