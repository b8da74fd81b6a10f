// What one run becomes: its entry, its key and its replacement
// (scripts/recombine-messages.ts, keyFor and the loop over a run).
module Rewrites {
  import opened Text
  import opened Messages
  import opened JsxTree
  import opened HoleNaming
  import opened Sentences
  import opened Rendering
  import opened SameScreen
  import opened Runs

  // ---- the key ----

  // Everything before the last dot. Without a dot the last character goes.
  function PrefixOf(key: string): string {
    PrefixFrom(key, key)
  }

  function PrefixFrom(key: string, rest: string): string
  {
    if rest == "" then (if key == "" then "" else key[..|key| - 1])
    else if rest[|rest| - 1] == '.' then rest[..|rest| - 1]
    else PrefixFrom(key, rest[..|rest| - 1])
  }

  // The sentence with each named hole blanked out.
  function WithoutHoles(sentence: string): string
    decreases |sentence|
  {
    if sentence == "" then ""
    else
      var hole := LeadingHole(sentence);
      if hole.Some? then " " + WithoutHoles(sentence[|hole.value| + 2..])
      else [sentence[0]] + WithoutHoles(sentence[1..])
  }

  // The stretches of letters and digits.
  function Words(s: string): seq<string>
    decreases |s|
  {
    if s == "" then []
    else
      var n := NameLength(s);
      if n == 0 then Words(s[1..]) else [s[..n]] + Words(s[n..])
  }

  function CamelCase(words: seq<string>, first: bool): string {
    if words == [] then ""
    else
      (if first || words[0] == "" then LowerAll(words[0])
       else [ToUpper(words[0][0])] + LowerAll(words[0][1..]))
      + CamelCase(words[1..], false)
  }

  function KeyBase(firstKey: string, sentence: string): string {
    var words := Words(WithoutHoles(sentence));
    var camel := CamelCase(if |words| > 5 then words[..5] else words, true);
    PrefixOf(firstKey) + "." + (if camel == "" then "message" else camel)
  }

  // A key for the new entry that none has yet.
  function KeyFor(firstKey: string, sentence: string, used: set<string>): (r: string)
    ensures r !in used
  {
    FreshName(KeyBase(firstKey, sentence), used)
  }

  // ---- the rewrite ----

  datatype Rewrite = Rewrite(
    lo: nat, hi: nat, replacement: string, newKey: string, english: string, malay: string, retired: seq<string>)

  // The keys a run renders, in order.
  function KeysOf(parts: seq<Part>): (r: seq<string>)
    ensures forall key :: key in r <==> Message(key) in parts
  {
    if parts == [] then []
    else (if parts[0].Message? then [parts[0].key] else []) + KeysOf(parts[1..])
  }

  function ShownBinding(b: Binding): string {
    if b.expression == b.name then b.name else b.name + ": " + b.expression
  }

  function ShownBindings(bindings: seq<Binding>): (r: seq<string>)
    ensures |r| == |bindings|
  {
    if bindings == [] then [] else [ShownBinding(bindings[0])] + ShownBindings(bindings[1..])
  }

  function QuotedKey(key: string): string { "\"" + key + "\"" }

  function Replacement(newKey: string, bindings: seq<Binding>): string {
    "{t(" + QuotedKey(newKey) + ", { " + Join(ShownBindings(bindings), ", ") + " })}"
  }

  // The other language's text for a key, or the English one where it has none.
  function WithFallback(ms: Catalogue, en: Catalogue): Catalogue { en + ms }

  // The rewrite of one run, or None when a key in it has no English entry.
  function Combine(run: Run, en: Catalogue, ms: Catalogue, claimed: Catalogue): Option<Rewrite> {
    var parts := PartsOf(run);
    if !Known(parts, en) || KeysOf(parts) == [] then None
    else
      var english := Combined(parts, en);
      var newKey := KeyFor(KeysOf(parts)[0], english, en.Keys + claimed.Keys);
      Some(Rewrite(
        Start(run), End(run), Replacement(newKey, Bindings(Expressions(parts), map[])), newKey,
        english, Combined(parts, WithFallback(ms, en)), KeysOf(parts)))
  }

  // ---- the loop over one run ----

  // The loop's variables after some of the run's parts.
  datatype Gathering = Gathering(english: string, malay: string, holes: seq<Binding>, retired: seq<string>)

  // What a whole run gathers, and the names it gives.
  datatype Total = Total(names: Taken, gathered: Gathering)

  function TotalOf(parts: seq<Part>, en: Catalogue, both: Catalogue): Total {
    var names := RunNames(parts);
    Total(names, Gathering(Sentence(parts, en, names), Sentence(parts, both, names),
                           Bindings(Expressions(parts), map[]), KeysOf(parts)))
  }

  // What has been gathered and what is still to come make up the total.
  ghost predicate Adds(total: Total, rest: seq<Part>, en: Catalogue, both: Catalogue, taken: Taken, g: Gathering) {
    && NameAll(Expressions(rest), taken) == total.names
    && total.gathered.holes == g.holes + Bindings(Expressions(rest), taken)
    && total.gathered.retired == g.retired + KeysOf(rest)
    && total.gathered.english == g.english + Sentence(rest, en, total.names)
    && total.gathered.malay == g.malay + Sentence(rest, both, total.names)
  }

  function TakenAfter(part: Part, taken: Taken): Taken {
    if part.Value? then taken[part.expression := HoleFor(part.expression, taken)] else taken
  }

  // The entry a value adds to the object literal the first time it is met.
  function FoundHole(part: Part, taken: Taken): seq<Binding> {
    if part.Value? && part.expression !in taken
    then [Binding(HoleFor(part.expression, taken), part.expression)]
    else []
  }

  // The variables after one more part.
  function Grown(part: Part, en: Catalogue, both: Catalogue, taken: Taken, g: Gathering): Gathering {
    var names := TakenAfter(part, taken);
    Gathering(
      g.english + PartText(part, en, names),
      g.malay + PartText(part, both, names),
      g.holes + FoundHole(part, taken),
      g.retired + (if part.Message? then [part.key] else []))
  }

  lemma AddsNothing(parts: seq<Part>, en: Catalogue, both: Catalogue)
    ensures Adds(TotalOf(parts, en, both), parts[0..], en, both, map[], Gathering("", "", [], []))
  {
    assert parts[0..] == parts;
  }

  lemma AddsAll(total: Total, rest: seq<Part>, en: Catalogue, both: Catalogue, taken: Taken, g: Gathering)
    requires rest == [] && Adds(total, rest, en, both, taken, g)
    ensures g == total.gathered
  {
  }

  lemma AddsOneMore(total: Total, part: Part, rest: seq<Part>, en: Catalogue, both: Catalogue, taken: Taken,
                    g: Gathering)
    requires Adds(total, [part] + rest, en, both, taken, g)
    ensures Adds(total, rest, en, both, TakenAfter(part, taken), Grown(part, en, both, taken, g))
  {
    NamesGrow(total.names, part, rest, taken);
    var names := TakenAfter(part, taken);
    HolesOneMore(total.gathered.holes, g.holes, part, rest, taken);
    KeysOneMore(total.gathered.retired, g.retired, part, rest);
    TextOneMore(total.gathered.english, g.english, part, rest, en, total.names, PartText(part, en, names));
    TextOneMore(total.gathered.malay, g.malay, part, rest, both, total.names, PartText(part, both, names));
  }

  lemma NamesGrow(all: Taken, part: Part, rest: seq<Part>, taken: Taken)
    requires NameAll(Expressions([part] + rest), taken) == all
    ensures NameAll(Expressions(rest), TakenAfter(part, taken)) == all
    ensures part.Value? ==> part.expression in all && all[part.expression] == HoleFor(part.expression, taken)
  {
    ExpressionsOneMore(part, rest);
    if part.Value? {
      NamesOneMore(part.expression, Expressions(rest), taken);
    }
  }

  lemma HolesOneMore(all: seq<Binding>, holes: seq<Binding>, part: Part, rest: seq<Part>, taken: Taken)
    requires all == holes + Bindings(Expressions([part] + rest), taken)
    ensures all == holes + FoundHole(part, taken) + Bindings(Expressions(rest), TakenAfter(part, taken))
  {
    ExpressionsOneMore(part, rest);
    if part.Value? {
      NamesOneMore(part.expression, Expressions(rest), taken);
      Regroup(holes, FoundHole(part, taken), Bindings(Expressions(rest), TakenAfter(part, taken)));
    } else {
      assert holes + [] == holes;
    }
  }

  lemma KeysOneMore(all: seq<string>, keys: seq<string>, part: Part, rest: seq<Part>)
    requires all == keys + KeysOf([part] + rest)
    ensures all == keys + (if part.Message? then [part.key] else []) + KeysOf(rest)
  {
    assert ([part] + rest)[0] == part && ([part] + rest)[1..] == rest;
    Regroup(keys, if part.Message? then [part.key] else [], KeysOf(rest));
  }

  lemma TextOneMore(all: string, text: string, part: Part, rest: seq<Part>, catalogue: Catalogue, names: Taken,
                    more: string)
    requires all == text + Sentence([part] + rest, catalogue, names)
    requires more == PartText(part, catalogue, names)
    ensures all == text + more + Sentence(rest, catalogue, names)
  {
    assert ([part] + rest)[0] == part && ([part] + rest)[1..] == rest;
    Regroup(text, more, Sentence(rest, catalogue, names));
  }

  lemma ExpressionsOneMore(part: Part, rest: seq<Part>)
    ensures Expressions([part] + rest)
         == if part.Value? then [part.expression] + Expressions(rest) else Expressions(rest)
  {
    assert ([part] + rest)[0] == part && ([part] + rest)[1..] == rest;
  }

  lemma NamesOneMore(e: string, es: seq<string>, taken: Taken)
    ensures
      var name := HoleFor(e, taken);
      && NameAll([e] + es, taken) == NameAll(es, taken[e := name])
      && Bindings([e] + es, taken) == (if e in taken then [] else [Binding(name, e)]) + Bindings(es, taken[e := name])
      && NameAll([e] + es, taken)[e] == name
  {
    var all := [e] + es;
    assert all[0] == e && all[1..] == es;
  }

  // One turn of the loop. It gives up at a key without an English entry.
  method ReadPart(part: Part, table: HoleTable, g: Gathering, en: Catalogue, ms: Catalogue)
    returns (ok: bool, next: Gathering)
    requires Distinct(table.taken)
    modifies table
    ensures Distinct(table.taken)
    ensures ok <==> (part.Message? ==> part.key in en)
    ensures ok ==> table.taken == TakenAfter(part, old(table.taken))
    ensures ok ==> next == Grown(part, en, WithFallback(ms, en), old(table.taken), g)
  {
    ok, next := true, g;
    match part
    case Literal(text, _) =>
      next := g.(english := g.english + text, malay := g.malay + text);
    case Message(key) =>
      if key !in en {
        ok := false;
        return;
      }
      var malay := if key in ms then ms[key] else en[key];
      next := Gathering(g.english + en[key], g.malay + malay, g.holes, g.retired + [key]);
    case Value(e) =>
      var seen := e in table.taken;
      var name := table.Name(e);
      next := Gathering(g.english + Braced(name), g.malay + Braced(name),
                        g.holes + if seen then [] else [Binding(name, e)], g.retired);
    case Barrier =>
  }

  // The turn in place i of the loop over a run.
  method ReadNext(ghost total: Total, ghost parts: seq<Part>, ghost i: nat, part: Part, table: HoleTable, g: Gathering,
                  en: Catalogue, ms: Catalogue) returns (ok: bool, next: Gathering)
    requires i < |parts| && parts[i] == part && Distinct(table.taken)
    requires forall p | p in parts[..i] :: p.Message? ==> p.key in en
    requires Adds(total, parts[i..], en, WithFallback(ms, en), table.taken, g)
    modifies table
    ensures Distinct(table.taken)
    ensures !ok ==> !Known(parts, en)
    ensures ok ==> forall p | p in parts[..i + 1] :: p.Message? ==> p.key in en
    ensures ok ==> Adds(total, parts[i + 1..], en, WithFallback(ms, en), table.taken, next)
  {
    assert parts[i..] == [part] + parts[i + 1..] && parts[..i + 1] == parts[..i] + [part];
    AddsOneMore(total, part, parts[i + 1..], en, WithFallback(ms, en), table.taken, g);
    ok, next := ReadPart(part, table, g, en, ms);
  }

  // One run read to the end, or given up.
  method CombineRun(run: Run, en: Catalogue, ms: Catalogue, claimed: Catalogue) returns (r: Option<Rewrite>)
    ensures r == Combine(run, en, ms, claimed)
  {
    ghost var parts := PartsOf(run);
    ghost var both := WithFallback(ms, en);
    ghost var total := TotalOf(parts, en, both);
    AddsNothing(parts, en, both);
    var table := new HoleTable();
    var g := Gathering("", "", [], []);
    var i := 0;
    while i < |run|
      invariant 0 <= i <= |run|
      invariant Distinct(table.taken) && fresh(table)
      invariant forall part | part in parts[..i] :: part.Message? ==> part.key in en
      invariant Adds(total, parts[i..], en, both, table.taken, g)
    {
      var ok, next := ReadNext(total, parts, i, PartOf(run[i]), table, g, en, ms);
      if !ok {
        return None;
      }
      g, i := next, i + 1;
    }
    assert parts[..i] == parts;
    AddsAll(total, parts[i..], en, both, table.taken, g);
    r := Finished(run, g, en, ms, claimed);
  }

  // The rewrite made of what the loop gathered.
  method Finished(run: Run, g: Gathering, en: Catalogue, ms: Catalogue, claimed: Catalogue) returns (r: Option<Rewrite>)
    requires Known(PartsOf(run), en)
    requires g == TotalOf(PartsOf(run), en, WithFallback(ms, en)).gathered
    ensures r == Combine(run, en, ms, claimed)
  {
    if g.retired == [] {
      return None;
    }
    var english, malay := Trim(Collapse(g.english)), Trim(Collapse(g.malay));
    var newKey := NewKey(g.retired[0], english, en.Keys + claimed.Keys);
    r := Some(Rewrite(run[0].lo, run[|run| - 1].hi, Replacement(newKey, g.holes), newKey, english, malay, g.retired));
  }

  method NewKey(firstKey: string, sentence: string, used: set<string>) returns (candidate: string)
    ensures candidate == KeyFor(firstKey, sentence, used)
    ensures candidate !in used
  {
    candidate := Freshen(KeyBase(firstKey, sentence), used);
  }

  // ---- what a rewrite promises ----

  lemma {:induction false} InkChar(s: string, c: char)
    requires !IsSpace(c)
    ensures c in Ink(s) <==> c in s
  {
    if s != "" {
      InkChar(s[1..], c);
    }
  }

  // The parser's promises make the parts of children sound to combine.
  lemma PartsAreSound(children: seq<Node>, catalogue: Catalogue)
    requires forall n | n in children :: WellFormed(n)
    requires Known(PartsOf(children), catalogue) && CleanParts(PartsOf(children), catalogue)
    ensures Sound(PartsOf(children), catalogue)
  {
    forall part | part in PartsOf(children)
      ensures Legible(part) && (part.Literal? ==> forall i | 0 <= i < |part.text| :: NoBrace(part.text[i]))
    {
      var k :| 0 <= k < |children| && PartOf(children[k]) == part;
      if part.Literal? {
        LiteralIsSound(children[k]);
      }
    }
  }

  lemma LiteralIsSound(child: Node)
    requires WellFormed(child) && PartOf(child).Literal?
    ensures
      var part := PartOf(child);
      Legible(part) && forall i | 0 <= i < |part.text| :: NoBrace(part.text[i])
  {
    match child
    case JsxText(raw, _, _, _) =>
      RenderedTextKeepsInk(raw);
      InkChar(RenderedText(raw), '{');
      InkChar(RenderedText(raw), '}');
      InkChar(raw, '{');
      InkChar(raw, '}');
    case Braces(form, _, _, _, _) =>
      TrimmedToNothing(form.text);
  }

  lemma TrimmedToNothing(s: string)
    requires Trim(s) == ""
    ensures AllSpace(s)
  {
    TrimStartCuts(s);
    TrimEndCuts(TrimStart(s));
    assert AllSpace(TrimStart(s));
  }

  // A run that is not safe to combine: "US$" before a price. The entry becomes
  // "US${price}", whose hole the dollar sign hides.
  lemma DollarRunIsUnsafe()
    ensures !SafeToCombine([Message("plan.costs"), Value("price")], map["plan.costs" := "US$"])
  {
    var catalogue := map["plan.costs" := "US$"];
    var parts := [Message("plan.costs"), Value("price")];
    assert parts[1..] == [Value("price")] && parts[1..][1..] == [];
    assert Parse("US$", false) == Chars("US$") by {
      assert "US$"[1..] == "S$" && "S$"[1..] == "$" && "$"[1..] == "";
      assert Parse("$", false) == [Ch('$')];
      assert Parse("S$", false) == [Ch('S')] + Parse("$", false);
      assert Parse("US$", false) == [Ch('U')] + Parse("S$", false);
    }
    assert MessagePieces("US$") == [Char('U'), Char('S'), Char('$')];
    var ps := [Char('U'), Char('S'), Char('$'), Slot("price")];
    assert RunPieces(parts[1..], catalogue) == [Slot("price")];
    assert RunPieces(parts, catalogue) == ps;
    assert ps[1..] == [Char('S'), Char('$'), Slot("price")] && ps[1..][1..] == [Char('$'), Slot("price")];
    assert DollarBefore([Char('$'), Slot("price")], false) by {
      assert [Char('$'), Slot("price")][1..] == [Slot("price")];
    }
  }

  // So is one with a value named after a term, such as `{termObjective}`.
  lemma TermNamedRunIsUnsafe(parts: seq<Part>, catalogue: Catalogue, h: TermHole)
    requires Known(parts, catalogue) && IsTerm(h.term) && Value(TermHoleName(h)) in parts
    ensures !SafeToCombine(parts, catalogue)
  {
    TermNamesItself(h);
    assert TermHoleName(h) in Expressions(parts);
  }

  // And one with a character reference: what is entered is the reference, and
  // what was shown the character.
  lemma ReferenceRunIsUnsafe(parts: seq<Part>, catalogue: Catalogue, lo: nat, hi: nat)
    requires Known(parts, catalogue) && PartOf(JsxText(" &middot; ", " \U{00B7} ", lo, hi)) in parts
    ensures !SafeToCombine(parts, catalogue)
  {
    var part := PartOf(JsxText(" &middot; ", " \U{00B7} ", lo, hi));
    assert part == Literal(" &middot; ", " \U{00B7} ");
    assert part.text[1] != part.shown[1] && part.text != " ";
    assert !Faithful(part);
  }
}
