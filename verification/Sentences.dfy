// The text of a run, before and after it becomes one message: pieces, and what
// collapsing and trimming whitespace does to them
// (scripts/recombine-messages.ts, the body of the loop over a run).
module Sentences {
  import opened Text
  import opened Messages
  import opened JsxTree

  // What a run says, character by character. A slot is where a value goes.
  datatype Piece = Char(c: char) | Term(name: string) | Slot(expression: string)

  // ---- whitespace ----

  // `replace(/\s+/g, " ")`: each stretch of whitespace becomes one space.
  function Collapse(s: string): string
    decreases |s|
  {
    if s == "" then ""
    else if IsSpace(s[0]) then " " + Collapse(TrimStart(s))
    else [s[0]] + Collapse(s[1..])
  }

  predicate Blank(p: Piece) { p.Char? && IsSpace(p.c) }

  function SkipStart(ps: seq<Piece>): (r: seq<Piece>)
    ensures |r| <= |ps|
    ensures r == [] || !Blank(r[0])
  {
    if ps != [] && Blank(ps[0]) then SkipStart(ps[1..]) else ps
  }

  function SkipEnd(ps: seq<Piece>): (r: seq<Piece>)
    ensures r <= ps
  {
    if ps != [] && Blank(ps[|ps| - 1]) then SkipEnd(ps[..|ps| - 1]) else ps
  }

  function Squeeze(ps: seq<Piece>): seq<Piece>
    decreases |ps|
  {
    if ps == [] then []
    else if Blank(ps[0]) then [Char(' ')] + Squeeze(SkipStart(ps[1..]))
    else [ps[0]] + Squeeze(ps[1..])
  }

  // A run's pieces with inner whitespace collapsed and outer whitespace gone.
  // Terms and slots are opaque: nothing inside them is touched.
  function Tidy(ps: seq<Piece>): seq<Piece> { SkipEnd(SkipStart(Squeeze(ps))) }

  // ---- pieces as catalogue text ----

  type Names = map<string, string>

  ghost predicate Named(ps: seq<Piece>, names: Names) {
    forall p | p in ps :: p.Slot? ==> p.expression in names
  }

  // A piece the hole expression will read as it was meant.
  predicate WellNamedPiece(p: Piece, names: Names) {
    match p
    case Char(c) => NoBrace(c)
    case Term(name) => IsHoleName(name) && IsTermHole(name)
    case Slot(e) => e in names && IsHoleName(names[e])
  }

  ghost predicate WellNamed(ps: seq<Piece>, names: Names) {
    forall p | p in ps :: WellNamedPiece(p, names)
  }

  function TokenOf(p: Piece, names: Names): Token
    requires p.Slot? ==> p.expression in names
  {
    match p
    case Char(c) => Ch(c)
    case Term(name) => Hole(name)
    case Slot(e) => Hole(names[e])
  }

  function TokensOf(ps: seq<Piece>, names: Names): (r: seq<Token>)
    requires Named(ps, names)
    ensures |r| == |ps|
    ensures forall i | 0 <= i < |ps| :: r[i] == TokenOf(ps[i], names)
  {
    seq(|ps|, i requires 0 <= i < |ps| => TokenOf(ps[i], names))
  }

  function Spelled(ps: seq<Piece>, names: Names): string
    requires Named(ps, names)
  {
    if ps == [] then "" else Shown(TokenOf(ps[0], names)) + Spelled(ps[1..], names)
  }

  lemma {:induction false} SpelledIsWritten(ps: seq<Piece>, names: Names)
    requires Named(ps, names)
    ensures Spelled(ps, names) == Written(TokensOf(ps, names))
  {
    if ps != [] {
      SpelledIsWritten(ps[1..], names);
      assert TokensOf(ps, names)[1..] == TokensOf(ps[1..], names);
    }
  }

  lemma {:induction false} SpelledConcat(left: seq<Piece>, right: seq<Piece>, names: Names)
    requires Named(left, names) && Named(right, names)
    ensures Named(left + right, names)
    ensures Spelled(left + right, names) == Spelled(left, names) + Spelled(right, names)
  {
    if left == [] {
      assert left + right == right;
    } else {
      assert (left + right)[1..] == left[1..] + right;
      SpelledConcat(left[1..], right, names);
    }
  }

  lemma SpelledOne(p: Piece, names: Names)
    requires p.Slot? ==> p.expression in names
    ensures Spelled([p], names) == Shown(TokenOf(p, names))
  {
    assert [p][1..] == [];
  }

  // ---- tidying commutes with spelling ----

  lemma {:induction false} SpelledSkipStart(ps: seq<Piece>, names: Names)
    requires Named(ps, names)
    ensures Named(SkipStart(ps), names)
    ensures Spelled(SkipStart(ps), names) == TrimStart(Spelled(ps, names))
  {
    if ps != [] {
      var s := Spelled(ps, names);
      assert s[0] == if ps[0].Char? then ps[0].c else '{';
      if Blank(ps[0]) {
        assert s[1..] == Spelled(ps[1..], names);
        SpelledSkipStart(ps[1..], names);
      }
    }
  }

  lemma TrimEndLast(s: string)
    requires s != ""
    ensures TrimEnd(s) == if IsSpace(s[|s| - 1]) then TrimEnd(s[..|s| - 1]) else s
  {
  }

  lemma {:induction false} SpelledSkipEnd(ps: seq<Piece>, names: Names)
    requires Named(ps, names)
    ensures Named(SkipEnd(ps), names)
    ensures Spelled(SkipEnd(ps), names) == TrimEnd(Spelled(ps, names))
  {
    if ps != [] {
      SpelledLast(ps, names);
      TrimEndLast(Spelled(ps, names));
      if Blank(ps[|ps| - 1]) {
        SpelledSkipEnd(ps[..|ps| - 1], names);
      } else {
        assert SkipEnd(ps) == ps;
      }
    }
  }

  lemma SpelledLast(ps: seq<Piece>, names: Names)
    requires Named(ps, names) && ps != []
    ensures
      var front, last, s := ps[..|ps| - 1], ps[|ps| - 1], Spelled(ps, names);
      && Named(front, names) && s != "" && s[|s| - 1] == (if last.Char? then last.c else '}')
      && (last.Char? ==> s[..|s| - 1] == Spelled(front, names))
  {
    var front, last := ps[..|ps| - 1], ps[|ps| - 1];
    assert ps == front + [last];
    SpelledConcat(front, [last], names);
    SpelledOne(last, names);
  }

  lemma {:induction false} CollapseInk(ink: string, rest: string)
    requires forall i | 0 <= i < |ink| :: !IsSpace(ink[i])
    ensures Collapse(ink + rest) == ink + Collapse(rest)
  {
    if ink == "" {
      assert ink + rest == rest;
    } else {
      assert (ink + rest)[1..] == ink[1..] + rest;
      CollapseInk(ink[1..], rest);
    }
  }

  lemma WellNamedIsNamed(ps: seq<Piece>, names: Names)
    requires WellNamed(ps, names)
    ensures Named(ps, names)
  {
    assert forall p | p in ps :: WellNamedPiece(p, names);
  }

  lemma {:induction false} SpelledSqueeze(ps: seq<Piece>, names: Names)
    requires Named(ps, names) && WellNamed(ps, names)
    ensures Named(Squeeze(ps), names)
    ensures Spelled(Squeeze(ps), names) == Collapse(Spelled(ps, names))
    decreases |ps|
  {
    if ps != [] {
      var rest := Spelled(ps[1..], names);
      if Blank(ps[0]) {
        var after := SkipStart(ps[1..]);
        SkipStartKeeps(ps[1..]);
        SpelledSkipStart(ps[1..], names);
        SpelledSqueeze(after, names);
        CollapseBlank(ps[0].c, rest);
        assert Squeeze(ps) == [Char(' ')] + Squeeze(after);
        SpelledCons(Char(' '), Squeeze(after), names);
      } else {
        SpelledSqueeze(ps[1..], names);
        ShownHasNoSpace(ps[0], names);
        CollapseInk(Shown(TokenOf(ps[0], names)), rest);
        SpelledCons(ps[0], Squeeze(ps[1..]), names);
      }
    }
  }

  lemma SpelledCons(p: Piece, ps: seq<Piece>, names: Names)
    requires (p.Slot? ==> p.expression in names) && Named(ps, names)
    ensures Named([p] + ps, names)
    ensures Spelled([p] + ps, names) == Shown(TokenOf(p, names)) + Spelled(ps, names)
  {
    assert ([p] + ps)[1..] == ps;
  }

  lemma CollapseBlank(c: char, rest: string)
    requires IsSpace(c)
    ensures Collapse([c] + rest) == " " + Collapse(TrimStart(rest))
  {
    assert ([c] + rest)[1..] == rest;
  }

  lemma ShownHasNoSpace(p: Piece, names: Names)
    requires WellNamedPiece(p, names) && !Blank(p)
    ensures forall i | 0 <= i < |Shown(TokenOf(p, names))| :: !IsSpace(Shown(TokenOf(p, names))[i])
  {
    match p
    case Char(_) =>
    case Term(name) => BracedHasNoSpace(name);
    case Slot(e) => BracedHasNoSpace(names[e]);
  }

  lemma BracedHasNoSpace(name: string)
    requires IsHoleName(name)
    ensures forall i | 0 <= i < |Braced(name)| :: !IsSpace(Braced(name)[i])
  {
    forall i | 0 <= i < |Braced(name)| ensures !IsSpace(Braced(name)[i]) {
      if 0 < i < |name| + 1 {
        assert Braced(name)[i] == name[i - 1];
      }
    }
  }

  lemma {:induction false} SkipStartKeeps(ps: seq<Piece>)
    ensures forall p | p in SkipStart(ps) :: p in ps
    ensures forall p | p in ps :: p in SkipStart(ps) || Blank(p)
  {
    if ps != [] && Blank(ps[0]) {
      SkipStartKeeps(ps[1..]);
    }
  }

  lemma {:induction false} SkipEndKeeps(ps: seq<Piece>)
    ensures forall p | p in SkipEnd(ps) :: p in ps
    ensures forall p | p in ps :: p in SkipEnd(ps) || Blank(p)
  {
    if ps != [] && Blank(ps[|ps| - 1]) {
      SkipEndKeeps(ps[..|ps| - 1]);
    }
  }

  lemma {:induction false} SqueezeKeeps(ps: seq<Piece>)
    ensures forall p | p in Squeeze(ps) :: p in ps || p == Char(' ')
    ensures forall p | p in ps :: p in Squeeze(ps) || Blank(p)
    decreases |ps|
  {
    if ps != [] {
      if Blank(ps[0]) {
        SkipStartKeeps(ps[1..]);
        SqueezeKeeps(SkipStart(ps[1..]));
      } else {
        SqueezeKeeps(ps[1..]);
      }
    }
  }

  // Tidying drops and adds nothing but whitespace.
  lemma TidyKeeps(ps: seq<Piece>)
    ensures forall p | p in Tidy(ps) :: p in ps || p == Char(' ')
    ensures forall p | p in ps :: p in Tidy(ps) || Blank(p)
  {
    SqueezeKeeps(ps);
    SkipStartKeeps(Squeeze(ps));
    SkipEndKeeps(SkipStart(Squeeze(ps)));
  }

  // Tidying the pieces is collapsing and trimming the text.
  lemma SpelledTidy(ps: seq<Piece>, names: Names)
    requires WellNamed(ps, names)
    ensures Named(ps, names) && WellNamed(Tidy(ps), names) && Named(Tidy(ps), names)
    ensures Spelled(Tidy(ps), names) == Trim(Collapse(Spelled(ps, names)))
  {
    TidyKeeps(ps);
    WellNamedIsNamed(ps, names);
    WellNamedIsNamed(Tidy(ps), names);
    SpelledSqueeze(ps, names);
    SpelledSkipStart(Squeeze(ps), names);
    SpelledSkipEnd(SkipStart(Squeeze(ps)), names);
  }

  // ---- dollars before holes ----

  // Whether a term or a slot sits directly behind a dollar sign.
  predicate DollarBefore(ps: seq<Piece>, dollar: bool) {
    ps != [] &&
    match ps[0]
    case Char(c) => DollarBefore(ps[1..], c == '$')
    case _ => dollar || DollarBefore(ps[1..], false)
  }

  lemma {:induction false} DollarTokens(ps: seq<Piece>, names: Names, dollar: bool)
    requires Named(ps, names)
    ensures DollarHole(TokensOf(ps, names), dollar) == DollarBefore(ps, dollar)
  {
    if ps != [] {
      assert TokensOf(ps, names)[1..] == TokensOf(ps[1..], names);
      DollarTokens(ps[1..], names, ps[0] == Char('$'));
    }
  }

  lemma {:induction false} DollarSkipStart(ps: seq<Piece>)
    ensures DollarBefore(SkipStart(ps), false) == DollarBefore(ps, false)
  {
    if ps != [] && Blank(ps[0]) {
      DollarSkipStart(ps[1..]);
    }
  }

  lemma {:induction false} DollarSqueeze(ps: seq<Piece>, dollar: bool)
    ensures DollarBefore(Squeeze(ps), dollar) == DollarBefore(ps, dollar)
    decreases |ps|
  {
    if ps != [] {
      if Blank(ps[0]) {
        DollarSkipStart(ps[1..]);
        DollarSqueeze(SkipStart(ps[1..]), false);
        assert Squeeze(ps)[1..] == Squeeze(SkipStart(ps[1..]));
      } else {
        DollarSqueeze(ps[1..], ps[0] == Char('$'));
        assert Squeeze(ps)[1..] == Squeeze(ps[1..]);
      }
    }
  }

  lemma {:induction false} DollarLast(ps: seq<Piece>, c: char, dollar: bool)
    ensures DollarBefore(ps + [Char(c)], dollar) == DollarBefore(ps, dollar)
  {
    if ps == [] {
      assert ps + [Char(c)] == [Char(c)];
    } else {
      assert (ps + [Char(c)])[1..] == ps[1..] + [Char(c)];
      DollarLast(ps[1..], c, ps[0] == Char('$'));
    }
  }

  lemma {:induction false} DollarSkipEnd(ps: seq<Piece>, dollar: bool)
    ensures DollarBefore(SkipEnd(ps), dollar) == DollarBefore(ps, dollar)
  {
    if ps != [] && Blank(ps[|ps| - 1]) {
      var front := ps[..|ps| - 1];
      assert ps == front + [Char(ps[|ps| - 1].c)];
      DollarLast(front, ps[|ps| - 1].c, dollar);
      DollarSkipEnd(front, dollar);
    }
  }

  lemma DollarTidy(ps: seq<Piece>)
    ensures DollarBefore(Tidy(ps), false) == DollarBefore(ps, false)
  {
    DollarSqueeze(ps, false);
    DollarSkipStart(Squeeze(ps));
    DollarSkipEnd(SkipStart(Squeeze(ps)), false);
  }

  // ---- a blank is a blank, however wide ----

  predicate AllBlank(ps: seq<Piece>) { forall i | 0 <= i < |ps| :: Blank(ps[i]) }

  lemma {:induction false} SkipBlank(blank: seq<Piece>, rest: seq<Piece>)
    requires AllBlank(blank)
    ensures SkipStart(blank + rest) == SkipStart(rest)
  {
    if blank == [] {
      assert blank + rest == rest;
    } else {
      assert (blank + rest)[1..] == blank[1..] + rest;
      SkipBlank(blank[1..], rest);
    }
  }

  // Swapping one stretch of whitespace for another does not show once squeezed.
  lemma {:induction false} SqueezeBlank(before: seq<Piece>, wide: seq<Piece>, narrow: seq<Piece>, rest: seq<Piece>)
    requires AllBlank(wide) && AllBlank(narrow) && wide != [] && narrow != []
    ensures Squeeze(before + wide + rest) == Squeeze(before + narrow + rest)
    decreases |before|
  {
    if before == [] {
      assert before + wide + rest == wide + rest && before + narrow + rest == narrow + rest;
      assert (wide + rest)[1..] == wide[1..] + rest && (narrow + rest)[1..] == narrow[1..] + rest;
      SkipBlank(wide[1..], rest);
      SkipBlank(narrow[1..], rest);
    } else {
      assert (before + wide + rest)[1..] == before[1..] + wide + rest;
      assert (before + narrow + rest)[1..] == before[1..] + narrow + rest;
      if Blank(before[0]) {
        SkipThrough(before[1..], wide, rest);
        SkipThrough(before[1..], narrow, rest);
        SqueezeBlank(SkipStart(before[1..]), wide, narrow, rest);
      } else {
        SqueezeBlank(before[1..], wide, narrow, rest);
      }
    }
  }

  lemma {:induction false} SkipThrough(before: seq<Piece>, blank: seq<Piece>, rest: seq<Piece>)
    requires AllBlank(blank)
    ensures SkipStart(before + blank + rest)
         == if SkipStart(before) == [] then SkipStart(rest) else SkipStart(before) + blank + rest
  {
    if before == [] {
      assert before + blank + rest == blank + rest;
      SkipBlank(blank, rest);
    } else if Blank(before[0]) {
      assert (before + blank + rest)[1..] == before[1..] + blank + rest;
      SkipThrough(before[1..], blank, rest);
    }
  }
}
