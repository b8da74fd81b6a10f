// Text as it is laid out: stretches of whitespace shown as one space, inside a
// text and where two texts meet.
module Layout {
  import opened Text
  import opened JsxTree
  import opened Sentences
  import opened Rendering

  predicate StartsBlank(s: string) { s != "" && IsSpace(s[0]) }

  predicate EndsBlank(s: string) { s != "" && IsSpace(s[|s| - 1]) }

  // Two texts that look alike once laid out.
  predicate Alike(s: string, t: string) { Collapse(s) == Collapse(t) }

  // Collapsed texts one after the other: two spaces that meet are one.
  function Glue(a: string, b: string): string {
    if a != "" && b != "" && a[|a| - 1] == ' ' && b[0] == ' ' then a + b[1..] else a + b
  }

  lemma GlueCons(c: char, a: string, b: string)
    requires a == "" ==> c != ' '
    ensures Glue([c] + a, b) == [c] + Glue(a, b)
  {
    var s := [c] + a;
    assert s[|s| - 1] == if a == "" then c else a[|a| - 1];
    if a != "" && b != "" && a[|a| - 1] == ' ' && b[0] == ' ' {
      Regroup([c], a, b[1..]);
    } else {
      Regroup([c], a, b);
    }
  }

  lemma {:induction false} TrimStartOfBoth(u: string, v: string)
    ensures TrimStart(u + v) == if TrimStart(u) == "" then TrimStart(v) else TrimStart(u) + v
  {
    if u == "" {
      assert u + v == v;
    } else {
      assert (u + v)[0] == u[0] && (u + v)[1..] == u[1..] + v;
      TrimStartOfBoth(u[1..], v);
    }
  }

  lemma CollapseStep(c: char, rest: string)
    ensures Collapse([c] + rest) == if IsSpace(c) then " " + Collapse(TrimStart(rest)) else [c] + Collapse(rest)
  {
    assert ([c] + rest)[0] == c && ([c] + rest)[1..] == rest;
  }

  // Collapsing is done piece by piece, but for the spaces where pieces meet.
  lemma {:induction false} CollapseConcat(u: string, v: string)
    ensures Collapse(u + v) == Glue(Collapse(u), Collapse(v))
    decreases |u|
  {
    if u == "" {
      assert u + v == v;
    } else {
      var c, rest := u[0], u[1..];
      assert u == [c] + rest && u + v == [c] + (rest + v);
      CollapseStep(c, rest);
      CollapseStep(c, rest + v);
      if IsSpace(c) {
        TrimStartOfBoth(rest, v);
        if TrimStart(rest) == "" {
          OneSpaceFirst(v);
        } else {
          CollapseConcat(TrimStart(rest), v);
          CollapseEnds(TrimStart(rest));
          GlueCons(' ', Collapse(TrimStart(rest)), Collapse(v));
        }
      } else {
        CollapseConcat(rest, v);
        GlueCons(c, Collapse(rest), Collapse(v));
      }
    }
  }

  lemma OneSpaceFirst(v: string)
    ensures Glue(" ", Collapse(v)) == " " + Collapse(TrimStart(v))
  {
    if v != "" {
      assert v == [v[0]] + v[1..];
      CollapseStep(v[0], v[1..]);
      if IsSpace(v[0]) {
        assert (" " + Collapse(TrimStart(v[1..])))[1..] == Collapse(TrimStart(v[1..]));
      }
    }
  }

  // A collapsed text begins and ends with a space where the text itself does.
  lemma {:induction false} CollapseEnds(s: string)
    ensures Collapse(s) == "" <==> s == ""
    ensures s != "" ==> (Collapse(s)[0] == ' ' <==> StartsBlank(s))
    ensures s != "" ==> (Collapse(s)[|Collapse(s)| - 1] == ' ' <==> EndsBlank(s))
    decreases |s|
  {
    if s != "" {
      var c, rest := s[0], s[1..];
      assert s == [c] + rest;
      CollapseStep(c, rest);
      var more := if IsSpace(c) then TrimStart(rest) else rest;
      CollapseEnds(more);
      TrimStartKeepsEnd(rest);
      var all := Collapse(s);
      assert all[1..] == Collapse(more);
      assert all[|all| - 1] == if more == "" then all[0] else Collapse(more)[|Collapse(more)| - 1];
    }
  }

  lemma {:induction false} TrimStartKeepsEnd(s: string)
    ensures TrimStart(s) == "" ==> s == "" || EndsBlank(s)
    ensures TrimStart(s) != "" ==> s != "" && TrimStart(s)[|TrimStart(s)| - 1] == s[|s| - 1]
  {
    if s != "" && IsSpace(s[0]) {
      TrimStartKeepsEnd(s[1..]);
    }
  }

  lemma AlikeInside(a: string, s: string, t: string, b: string)
    requires Alike(s, t)
    ensures Alike(a + s + b, a + t + b)
  {
    CollapseConcat(a + s, b);
    CollapseConcat(a + t, b);
    CollapseConcat(a, s);
    CollapseConcat(a, t);
  }

  lemma CollapseOfBlank(blank: string)
    requires AllSpace(blank)
    ensures Collapse(blank) == if blank == "" then "" else " "
  {
    if blank != "" {
      assert blank == [blank[0]] + blank[1..];
      CollapseStep(blank[0], blank[1..]);
      TrimStartAll(blank[1..]);
    }
  }

  // Whitespace beside whitespace does not show.
  lemma BlankAfter(u: string, blank: string)
    requires EndsBlank(u) && AllSpace(blank)
    ensures Alike(u + blank, u)
  {
    CollapseConcat(u, blank);
    CollapseOfBlank(blank);
    CollapseEnds(u);
    assert blank != "" ==> " "[1..] == "";
  }

  lemma BlankBefore(blank: string, w: string)
    requires StartsBlank(w) && AllSpace(blank)
    ensures Alike(blank + w, w)
  {
    CollapseConcat(blank, w);
    CollapseOfBlank(blank);
    CollapseEnds(w);
    var c := Collapse(w);
    assert c == [c[0]] + c[1..];
  }

  lemma {:induction false} CollapseKeepsInk(s: string)
    ensures Ink(Collapse(s)) == Ink(s)
    decreases |s|
  {
    if s != "" {
      var c, rest := s[0], s[1..];
      assert s == [c] + rest;
      CollapseStep(c, rest);
      if IsSpace(c) {
        InkTrimStart(rest);
        CollapseKeepsInk(TrimStart(rest));
        assert (" " + Collapse(TrimStart(rest)))[1..] == Collapse(TrimStart(rest));
      } else {
        CollapseKeepsInk(rest);
        assert ([c] + Collapse(rest))[1..] == Collapse(rest);
      }
    }
  }

  // ---- how many gaps a text has ----

  function Spaces(s: string): nat {
    if s == "" then 0 else (if s[0] == ' ' then 1 else 0) + Spaces(s[1..])
  }

  lemma {:induction false} SpacesConcat(a: string, b: string)
    ensures Spaces(a + b) == Spaces(a) + Spaces(b)
  {
    if a == "" {
      assert a + b == b;
    } else {
      assert (a + b)[0] == a[0] && (a + b)[1..] == a[1..] + b;
      SpacesConcat(a[1..], b);
    }
  }

  // The stretches of whitespace in a text.
  function Gaps(s: string): nat { Spaces(Collapse(s)) }

  lemma GapsConcat(u: string, v: string)
    ensures Gaps(u + v) == Gaps(u) + Gaps(v) - if EndsBlank(u) && StartsBlank(v) then 1 else 0
  {
    var a, b := Collapse(u), Collapse(v);
    CollapseConcat(u, v);
    CollapseEnds(u);
    CollapseEnds(v);
    if EndsBlank(u) && StartsBlank(v) {
      SpacesConcat(a, b[1..]);
    } else {
      SpacesConcat(a, b);
    }
  }

  lemma GapsOfBlank(blank: string)
    requires AllSpace(blank)
    ensures Gaps(blank) == if blank == "" then 0 else 1
  {
    CollapseOfBlank(blank);
    assert " "[1..] == "" && Spaces(" ") == 1;
  }

  // ---- laying out pieces ----

  lemma {:induction false} SpokenSkipStart(ps: seq<Piece>, values: string -> string, words: string -> string)
    returns (blank: string)
    ensures AllSpace(blank) && Spoken(ps, values, words) == blank + Spoken(SkipStart(ps), values, words)
    ensures blank != "" <==> ps != [] && Blank(ps[0])
  {
    if ps != [] && Blank(ps[0]) {
      var rest := SpokenSkipStart(ps[1..], values, words);
      blank := [ps[0].c] + rest;
      Regroup([ps[0].c], rest, Spoken(SkipStart(ps), values, words));
    } else {
      blank := "";
    }
  }

  lemma {:induction false} SpokenSkipEnd(ps: seq<Piece>, values: string -> string, words: string -> string)
    returns (blank: string)
    ensures AllSpace(blank) && Spoken(ps, values, words) == Spoken(SkipEnd(ps), values, words) + blank
    ensures blank != "" <==> ps != [] && Blank(ps[|ps| - 1])
  {
    if ps != [] && Blank(ps[|ps| - 1]) {
      var front, last := ps[..|ps| - 1], ps[|ps| - 1];
      assert ps == front + [last] && [last][1..] == [];
      SpokenConcat(front, [last], values, words);
      assert Spoken([last], values, words) == [last.c];
      var rest := SpokenSkipEnd(front, values, words);
      blank := rest + [last.c];
      Regroup(Spoken(SkipEnd(ps), values, words), rest, [last.c]);
    } else {
      blank := "";
    }
  }

  // Squeezed pieces read out look like the pieces themselves.
  lemma {:induction false} SpokenSqueeze(ps: seq<Piece>, values: string -> string, words: string -> string)
    ensures Alike(Spoken(Squeeze(ps), values, words), Spoken(ps, values, words))
    decreases |ps|
  {
    if ps != [] {
      var rest := ps[1..];
      if Blank(ps[0]) {
        var after := SkipStart(rest);
        SpokenSqueeze(after, values, words);
        var blank := SpokenSkipStart(rest, values, words);
        SqueezedBlank(ps[0].c, blank, Spoken(after, values, words), Spoken(Squeeze(after), values, words));
        SpokenFirst(Char(' '), Squeeze(after), values, words);
      } else {
        SpokenSqueeze(rest, values, words);
        SpokenFirst(ps[0], Squeeze(rest), values, words);
        var head := SpokenPiece(ps[0], values, words);
        AlikeInside(head, Spoken(Squeeze(rest), values, words), Spoken(rest, values, words), "");
        assert head + Spoken(Squeeze(rest), values, words) + "" == head + Spoken(Squeeze(rest), values, words);
        assert head + Spoken(rest, values, words) + "" == head + Spoken(rest, values, words);
      }
    }
  }

  lemma SpokenFirst(p: Piece, ps: seq<Piece>, values: string -> string, words: string -> string)
    ensures Spoken([p] + ps, values, words) == SpokenPiece(p, values, words) + Spoken(ps, values, words)
  {
    assert ([p] + ps)[1..] == ps;
  }

  lemma AlikeThen(s: string, t: string, b: string)
    requires Alike(s, t)
    ensures Alike(s + b, t + b)
  {
    AlikeInside("", s, t, b);
    assert "" + s == s && "" + t == t;
  }

  lemma ThenAlike(a: string, s: string, t: string)
    requires Alike(s, t)
    ensures Alike(a + s, a + t)
  {
    AlikeInside(a, s, t, "");
    assert a + s + "" == a + s && a + t + "" == a + t;
  }

  lemma SqueezedBlank(c: char, blank: string, text: string, squeezed: string)
    requires IsSpace(c) && AllSpace(blank) && Alike(squeezed, text)
    ensures Alike(" " + squeezed, [c] + (blank + text))
  {
    var wide := [c] + blank;
    CollapseOfBlank(wide);
    CollapseOfBlank(" ");
    AlikeThen(" ", wide, squeezed);
    ThenAlike(wide, squeezed, text);
    Regroup([c], blank, text);
  }

  lemma {:induction false} SkipStartIsSuffix(ps: seq<Piece>)
    ensures |SkipStart(ps)| <= |ps| && SkipStart(ps) == ps[|ps| - |SkipStart(ps)|..]
    ensures SkipStart(ps) == [] <==> AllBlank(ps)
  {
    if ps != [] && Blank(ps[0]) {
      SkipStartIsSuffix(ps[1..]);
    }
  }

  // What is left to squeeze once the first piece is dealt with.
  function Beyond(ps: seq<Piece>): (r: seq<Piece>)
    requires ps != []
    ensures |r| < |ps|
  {
    if Blank(ps[0]) then SkipStart(ps[1..]) else ps[1..]
  }

  lemma SqueezeStep(ps: seq<Piece>)
    requires ps != []
    ensures Squeeze(ps) == [if Blank(ps[0]) then Char(' ') else ps[0]] + Squeeze(Beyond(ps))
  {
  }

  lemma BeyondIsSuffix(ps: seq<Piece>)
    requires ps != []
    ensures Beyond(ps) == ps[|ps| - |Beyond(ps)|..]
  {
    SkipStartIsSuffix(ps[1..]);
  }

  lemma NothingBeyond(ps: seq<Piece>)
    requires ps != [] && Beyond(ps) == []
    ensures Blank(ps[|ps| - 1]) == Blank(ps[0])
  {
    SkipStartIsSuffix(ps[1..]);
    assert |ps| > 1 ==> ps[|ps| - 1] == ps[1..][|ps| - 2];
  }

  lemma EndOfBoth(p: Piece, more: seq<Piece>)
    ensures var all := [p] + more;
            all[0] == p && all[|all| - 1] == if more == [] then p else more[|more| - 1]
  {
  }

  // Squeezing keeps what a run begins and ends with.
  lemma {:induction false} SqueezeEnds(ps: seq<Piece>)
    ensures Squeeze(ps) == [] <==> ps == []
    ensures ps != [] ==> (Blank(Squeeze(ps)[0]) <==> Blank(ps[0]))
    ensures ps != [] ==> (Blank(Squeeze(ps)[|Squeeze(ps)| - 1]) <==> Blank(ps[|ps| - 1]))
    decreases |ps|
  {
    if ps != [] {
      SqueezeStep(ps);
      BeyondIsSuffix(ps);
      if Beyond(ps) == [] {
        NothingBeyond(ps);
      }
      SqueezeEnds(Beyond(ps));
      EndOfBoth(if Blank(ps[0]) then Char(' ') else ps[0], Squeeze(Beyond(ps)));
    }
  }

  // Tidying takes whitespace off both ends, and nothing else that shows.
  lemma SpokenTidy(ps: seq<Piece>, values: string -> string, words: string -> string)
    returns (lead: string, trail: string)
    ensures AllSpace(lead) && AllSpace(trail)
    ensures Alike(Spoken(ps, values, words), lead + Spoken(Tidy(ps), values, words) + trail)
    ensures !AllBlank(ps) ==> (lead != "" <==> Blank(ps[0])) && (trail != "" <==> Blank(ps[|ps| - 1]))
  {
    var squeezed := Squeeze(ps);
    var started := SkipStart(squeezed);
    SpokenSqueeze(ps, values, words);
    lead := SpokenSkipStart(squeezed, values, words);
    trail := SpokenSkipEnd(started, values, words);
    Regroup(lead, Spoken(Tidy(ps), values, words), trail);
    SqueezeEnds(ps);
    SkipStartIsSuffix(squeezed);
    if !AllBlank(ps) {
      SqueezeKeepsBlank(ps);
    }
  }

  lemma SqueezeKeepsBlank(ps: seq<Piece>)
    requires !AllBlank(ps)
    ensures ps != [] && !AllBlank(Squeeze(ps))
  {
    SqueezeKeeps(ps);
    var i :| 0 <= i < |ps| && !Blank(ps[i]);
    assert ps[i] in Squeeze(ps);
  }

  lemma TidyKeepsInk(ps: seq<Piece>, values: string -> string, words: string -> string)
    ensures Ink(Spoken(Tidy(ps), values, words)) == Ink(Spoken(ps, values, words))
  {
    var tidy := Spoken(Tidy(ps), values, words);
    var lead, trail := SpokenTidy(ps, values, words);
    CollapseKeepsInk(Spoken(ps, values, words));
    CollapseKeepsInk(lead + tidy + trail);
    InkConcat(lead + tidy, trail);
    InkConcat(lead, tidy);
    InkSpace(lead);
    InkSpace(trail);
  }
}
