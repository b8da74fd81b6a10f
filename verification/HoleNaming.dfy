// Naming the holes of a combined sentence, and finding a name nobody has yet
// (scripts/recombine-messages.ts, holeName and the loops that freshen a name).
module HoleNaming {
  import opened Text
  import opened Messages

  // ---- fresh names ----

  // The n-th candidate for a name: the name itself, then name2, name3 and so on.
  function Numbered(base: string, n: nat): string
    requires n >= 1
  {
    if n == 1 then base else base + Decimal(n)
  }

  lemma NumberedInjective(base: string, m: nat, n: nat)
    requires 1 <= m < n
    ensures Numbered(base, m) != Numbered(base, n)
  {
    assert Numbered(base, n)[|base|..] == Decimal(n);
    if m > 1 {
      assert Numbered(base, m)[|base|..] == Decimal(m);
      NumeralOfDecimal(m);
      NumeralOfDecimal(n);
    }
  }

  // Pigeonhole: as many candidates taken as were tried means that many names
  // are in use.
  lemma {:induction false} TriedBound(base: string, n: nat, used: set<string>)
    requires forall m: nat | 1 <= m <= n :: Numbered(base, m) in used
    ensures n <= |used|
  {
    if n > 0 {
      var rest := used - {Numbered(base, n)};
      forall m: nat | 1 <= m <= n - 1 ensures Numbered(base, m) in rest {
        NumberedInjective(base, m, n);
      }
      TriedBound(base, n - 1, rest);
    }
  }

  // The number of the first candidate not in use, counting from n.
  function FirstFree(base: string, used: set<string>, n: nat): (r: nat)
    requires n >= 1
    requires forall m: nat | 1 <= m < n :: Numbered(base, m) in used
    ensures r >= n && Numbered(base, r) !in used
    ensures forall m: nat | 1 <= m < r :: Numbered(base, m) in used
    decreases |used| + 1 - n
  {
    if Numbered(base, n) in used then
      TriedBound(base, n, used);
      FirstFree(base, used, n + 1)
    else n
  }

  function FreshName(base: string, used: set<string>): (r: string)
    ensures r !in used
  {
    Numbered(base, FirstFree(base, used, 1))
  }

  // The freshness loop: it stops, and at the first candidate not in use.
  method Freshen(base: string, used: set<string>) returns (candidate: string)
    ensures candidate !in used
    ensures exists n: nat :: n >= 1 && candidate == Numbered(base, n)
                          && forall m: nat | 1 <= m < n :: Numbered(base, m) in used
    ensures candidate == FreshName(base, used)
  {
    candidate := base;
    var n := 2;
    while candidate in used
      invariant n >= 2 && candidate == Numbered(base, n - 1)
      invariant forall m: nat | 1 <= m < n - 1 :: Numbered(base, m) in used
      decreases |used| + 2 - n
    {
      TriedBound(base, n - 1, used);
      candidate := base + Decimal(n);
      n := n + 1;
    }
    FirstFreeIs(base, used, 1, n - 1);
  }

  lemma {:induction false} FirstFreeIs(base: string, used: set<string>, from: nat, n: nat)
    requires 1 <= from <= n
    requires Numbered(base, n) !in used
    requires forall m: nat | 1 <= m < n :: Numbered(base, m) in used
    ensures FirstFree(base, used, from) == n
  {
    var r := FirstFree(base, used, from);
    assert !(r < n) && !(n < r);
  }

  // ---- identifiers in an expression ----

  predicate IsIdentStart(c: char) { IsLetter(c) || c == '_' || c == '$' }

  predicate IsIdentPart(c: char) { IsIdentStart(c) || IsDigit(c) }

  function IdentLength(s: string): (n: nat)
    ensures n <= |s|
  {
    if s != "" && IsIdentPart(s[0]) then 1 + IdentLength(s[1..]) else 0
  }

  // Every identifier in an expression's text, left to right.
  function Identifiers(s: string): seq<string>
    decreases |s|
  {
    if s == "" then []
    else if IsIdentStart(s[0]) then
      var n := IdentLength(s);
      [s[..n]] + Identifiers(s[n..])
    else Identifiers(s[1..])
  }

  function LongOnes(words: seq<string>): seq<string> {
    if words == [] then []
    else (if |words[0]| > 1 then [words[0]] else []) + LongOnes(words[1..])
  }

  // Names of methods that format a value: they say nothing about what it holds.
  const PLUMBING: set<string> := {
    "join", "toFixed", "toString", "toLocaleString", "toUpperCase",
    "toLowerCase", "padStart", "padEnd", "trim", "map", "filter", "slice",
    "keys", "values"
  }

  function WithoutPlumbing(parts: seq<string>): (r: seq<string>)
    ensures parts != [] ==> r != []
  {
    if |parts| > 1 && parts[|parts| - 1] in PLUMBING
    then WithoutPlumbing(parts[..|parts| - 1])
    else parts
  }

  function AlnumOnly(s: string): (r: string)
    ensures AllAlnum(r)
  {
    if s == "" then ""
    else if IsAlnum(s[0]) then [s[0]] + AlnumOnly(s[1..])
    else AlnumOnly(s[1..])
  }

  // The name an expression would like: its last identifier that is not plumbing.
  function Stem(expression: string): (r: string)
    ensures IsHoleName(r)
  {
    StemOf(WithoutPlumbing(LongOnes(Identifiers(expression))))
  }

  function StemOf(parts: seq<string>): (r: string)
    ensures IsHoleName(r)
  {
    var last := if parts == [] then "value" else parts[|parts| - 1];
    var name := AlnumOnly(last);
    if name == "" || IsDigit(name[0]) then "value" else name
  }

  // ---- naming holes ----

  // Expressions to the hole names they were given.
  type Taken = map<string, string>

  // The name an expression gets: the one it has, or a fresh one.
  function HoleFor(expression: string, taken: Taken): string {
    if expression in taken then taken[expression]
    else FreshName(Stem(expression), taken.Values)
  }

  // The names after each expression in turn has been given one.
  function NameAll(expressions: seq<string>, taken: Taken): (r: Taken)
    ensures r.Keys == taken.Keys + set e | e in expressions
    ensures forall e | e in taken :: r[e] == taken[e]
  {
    if expressions == [] then taken
    else
      NameAll(expressions[1..], taken[expressions[0] := HoleFor(expressions[0], taken)])
  }

  // Two expressions never share a hole, and every name is one the catalogue
  // recognises.
  ghost predicate Distinct(taken: Taken) {
    && (forall e | e in taken :: IsHoleName(taken[e]))
    && (forall e, f | e in taken && f in taken && taken[e] == taken[f] :: e == f)
  }

  lemma HoleForKeepsDistinct(expression: string, taken: Taken)
    requires Distinct(taken)
    ensures Distinct(taken[expression := HoleFor(expression, taken)])
  {
    var name := HoleFor(expression, taken);
    if expression !in taken {
      var base := Stem(expression);
      var n := FirstFree(base, taken.Values, 1);
      assert name == Numbered(base, n);
      assert name != "" && name[0] == base[0] && AllAlnum(name);
      forall e | e in taken ensures taken[e] != name {
        assert taken[e] in taken.Values;
      }
    }
  }

  // The whole fold of names keeps expressions apart.
  lemma {:induction false} NameAllKeepsDistinct(expressions: seq<string>, taken: Taken)
    requires Distinct(taken)
    ensures Distinct(NameAll(expressions, taken))
  {
    if expressions != [] {
      HoleForKeepsDistinct(expressions[0], taken);
      NameAllKeepsDistinct(expressions[1..], taken[expressions[0] := HoleFor(expressions[0], taken)]);
    }
  }

  // ---- hole names and the method's terms ----

  // A name is its expression's stem, or that stem with a number.
  ghost predicate IsNumbered(stem: string, name: string) {
    name == stem || exists n: nat :: n >= 2 && name == Numbered(stem, n)
  }

  // And the stem itself is some expression's name.
  ghost predicate StemmedBy(taken: Taken, stem: string -> string) {
    && (forall e | e in taken :: IsNumbered(stem(e), taken[e]))
    && (forall e | e in taken :: stem(e) in taken.Values)
  }

  ghost predicate Stemmed(taken: Taken) { StemmedBy(taken, Stem) }

  lemma OneMoreStemmed(taken: Taken, expression: string, name: string, stem: string -> string)
    requires StemmedBy(taken, stem) && expression !in taken
    requires IsNumbered(stem(expression), name) && (name == stem(expression) || stem(expression) in taken.Values)
    ensures StemmedBy(taken[expression := name], stem)
  {
    ValuesGrow(taken, expression, name);
  }

  lemma FreshIsNumbered(stem: string, used: set<string>)
    ensures IsNumbered(stem, FreshName(stem, used))
    ensures FreshName(stem, used) == stem || stem in used
  {
    var n := FirstFree(stem, used, 1);
    assert FreshName(stem, used) == Numbered(stem, n);
    assert n > 1 ==> Numbered(stem, 1) in used;
  }

  lemma ValuesGrow(taken: Taken, expression: string, name: string)
    requires expression !in taken
    ensures taken[expression := name].Values == taken.Values + {name}
  {
    var more := taken[expression := name];
    assert more[expression] == name;
    forall e | e in taken ensures taken[e] in more.Values {
      assert e in more && more[e] == taken[e];
    }
  }

  lemma HoleForKeepsStemmed(expression: string, taken: Taken, name: string, stem: string -> string)
    requires StemmedBy(taken, stem)
    requires name == if expression in taken then taken[expression] else FreshName(stem(expression), taken.Values)
    ensures StemmedBy(taken[expression := name], stem)
  {
    if expression in taken {
      assert taken[expression := name] == taken;
    } else {
      FreshIsNumbered(stem(expression), taken.Values);
      OneMoreStemmed(taken, expression, name, stem);
    }
  }

  lemma {:induction false} NameAllKeepsStemmed(expressions: seq<string>, taken: Taken)
    requires Stemmed(taken)
    ensures Stemmed(NameAll(expressions, taken))
  {
    if expressions != [] {
      HoleForKeepsStemmed(expressions[0], taken, HoleFor(expressions[0], taken), Stem);
      NameAllKeepsStemmed(expressions[1..], taken[expressions[0] := HoleFor(expressions[0], taken)]);
    }
  }

  lemma NumberedIsNoTerm(base: string, n: nat)
    requires n >= 2
    ensures !IsTermHole(Numbered(base, n))
  {
    var name, digits := Numbered(base, n), Decimal(n);
    assert name[|name| - 1] == digits[|digits| - 1] && IsDigit(digits[|digits| - 1]);
    if IsTermHole(name) {
      TermEndsInLetter(name);
    }
  }

  ghost predicate NamesNoTerm(names: Taken) { forall e | e in names :: !IsTermHole(names[e]) }

  ghost predicate SpellNoTerm(expressions: seq<string>) { forall e | e in expressions :: !IsTermHole(Stem(e)) }

  lemma NumberedFollowsStem(stem: string, name: string)
    requires IsNumbered(stem, name) && !IsTermHole(stem)
    ensures !IsTermHole(name)
  {
    if name != stem {
      var n: nat :| n >= 2 && name == Numbered(stem, n);
      NumberedIsNoTerm(stem, n);
    }
  }

  lemma StemsFree(names: Taken, expressions: seq<string>, e: string)
    requires Stemmed(names) && SpellNoTerm(expressions) && e in names && e in expressions
    ensures !IsTermHole(names[e])
  {
    NumberedFollowsStem(Stem(e), names[e]);
  }

  lemma NamesFree(names: Taken, e: string)
    requires Stemmed(names) && NamesNoTerm(names) && e in names
    ensures !IsTermHole(Stem(e))
  {
    assert Stem(e) in names.Values;
    var f :| f in names && names[f] == Stem(e);
  }

  // A run's holes keep clear of the terms exactly when no expression's stem is
  // a term's hole: numbering a name never makes or unmakes one.
  lemma HolesAvoidTermsExactly(expressions: seq<string>)
    ensures NamesNoTerm(NameAll(expressions, map[])) <==> SpellNoTerm(expressions)
  {
    var names := NameAll(expressions, map[]);
    NameAllKeepsStemmed(expressions, map[]);
    if SpellNoTerm(expressions) {
      forall e | e in names ensures !IsTermHole(names[e]) {
        StemsFree(names, expressions, e);
      }
    }
    if NamesNoTerm(names) {
      forall e | e in expressions ensures !IsTermHole(Stem(e)) {
        NamesFree(names, e);
      }
    }
  }

  // ---- a value named after a term ----

  predicate OnlyLetters(s: string) { forall i | 0 <= i < |s| :: IsLetter(s[i]) }

  lemma FirstTermsAreLetters()
    ensures OnlyLetters("objective") && OnlyLetters("keyResult") && OnlyLetters("cycle")
    ensures OnlyLetters("space") && OnlyLetters("champion") && OnlyLetters("reviewer")
    ensures OnlyLetters("sponsor") && OnlyLetters("facilitator") && OnlyLetters("coordinator")
  {
  }

  lemma LastTermsAreLetters()
    ensures OnlyLetters("contributor") && OnlyLetters("checkIn") && OnlyLetters("confidence")
    ensures OnlyLetters("score") && OnlyLetters("kpi") && OnlyLetters("atRisk")
  {
  }

  lemma TermIsLetters(term: string)
    requires IsTerm(term)
    ensures OnlyLetters(term)
  {
    FirstTermsAreLetters();
    LastTermsAreLetters();
    AmongIsIn(TERMS, term);
  }

  lemma TermHoleIsLetters(h: TermHole)
    requires IsTerm(h.term)
    ensures var name := TermHoleName(h);
            |name| > 5 && name[0] == 't' && name[1] == 'e' && forall i | 0 <= i < |name| :: IsLetter(name[i])
  {
    TermIsLetters(h.term);
    TermsTakeMarks(h.term);
    StemIsLetters(TermStem(h.term), h.term);
    MarksAreLetters(TermStem(h.term), h);
  }

  lemma StemIsLetters(stem: string, term: string)
    requires stem == TermStem(term) && |term| >= 3 && forall i | 0 <= i < |term| :: IsLetter(term[i])
    ensures |stem| > 5 && stem[0] == 't' && stem[1] == 'e' && forall i | 0 <= i < |stem| :: IsLetter(stem[i])
  {
    var capital := Capitalised(term);
    assert stem == "term" + capital;
    forall i | 0 <= i < |stem| ensures IsLetter(stem[i]) {
      if i >= 4 {
        assert stem[i] == capital[i - 4];
        assert i > 4 ==> capital[i - 4] == term[i - 4];
      }
    }
  }

  lemma MarksAreLetters(stem: string, h: TermHole)
    requires stem == TermStem(h.term) && |stem| > 5 && forall i | 0 <= i < |stem| :: IsLetter(stem[i])
    ensures forall i | 0 <= i < |TermHoleName(h)| :: IsLetter(TermHoleName(h)[i])
    ensures stem <= TermHoleName(h)
  {
    var s, lower := if h.plural then "s" else "", if h.running then "Lower" else "";
    assert TermHoleName(h) == stem + s + lower;
    forall i | 0 <= i < |stem + s + lower| ensures IsLetter((stem + s + lower)[i]) {
      assert (stem + s + lower)[i] in stem || (stem + s + lower)[i] in s || (stem + s + lower)[i] in lower;
    }
  }

  lemma {:induction false} IdentifierWhole(s: string)
    requires forall i | 0 <= i < |s| :: IsLetter(s[i])
    ensures IdentLength(s) == |s| && AlnumOnly(s) == s
  {
    if s != "" {
      IdentifierWhole(s[1..]);
      assert s == [s[0]] + s[1..];
    }
  }

  // An expression that spells a term's hole is named after it.
  lemma TermNamesItself(h: TermHole)
    requires IsTerm(h.term)
    ensures Stem(TermHoleName(h)) == TermHoleName(h) && IsTermHole(TermHoleName(h))
  {
    TermHoleIsLetters(h);
    TermHoleReadBack(h, TermHoleName(h));
    WordNamesItself(TermHoleName(h));
  }

  lemma WordNamesItself(e: string)
    requires |e| > 1 && e[0] == 't' && e[1] == 'e' && forall i | 0 <= i < |e| :: IsLetter(e[i])
    ensures Stem(e) == e
  {
    IdentifierWhole(e);
    assert e[..|e|] == e && e[|e|..] == "";
    assert Identifiers(e) == [e] + Identifiers("") == [e];
    assert [e][1..] == [] && LongOnes([e]) == [e] + LongOnes([]) == [e];
    assert WithoutPlumbing([e]) == [e];
  }

  // The table of names the rewriter fills while it reads one run.
  class HoleTable {
    var taken: Taken

    constructor ()
      ensures taken == map[] && Distinct(taken)
    {
      taken := map[];
    }

    // One hole named, in place.
    method Name(expression: string) returns (name: string)
      requires Distinct(taken)
      modifies this
      ensures name == HoleFor(expression, old(taken))
      ensures taken == old(taken)[expression := name]
      ensures Distinct(taken)
    {
      HoleForKeepsDistinct(expression, taken);
      if expression in taken {
        name := taken[expression];
        assert taken == taken[expression := name];
        return;
      }
      var parts := LongOnes(Identifiers(expression));
      while |parts| > 1 && parts[|parts| - 1] in PLUMBING
        invariant WithoutPlumbing(parts) == WithoutPlumbing(LongOnes(Identifiers(expression)))
      {
        parts := parts[..|parts| - 1];
      }
      assert WithoutPlumbing(parts) == parts;
      name := Freshen(StemOf(parts), taken.Values);
      taken := taken[expression := name];
    }
  }
}
