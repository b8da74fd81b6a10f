// The syntax tree the rewriter walks, cut down to what it asks of it, and what
// one child of an element is to it (scripts/recombine-messages.ts, keyOf,
// renderedText, literal and valueOf).
module JsxTree {
  import opened Text
  import opened Messages

  // The expression inside a pair of braces: none at all, a string literal, a
  // call of `t` with one string literal, or anything else.
  datatype Form = Empty | Quoted(text: string) | Call(key: string) | Expression

  // A node with its span in the source. `source` is an expression's own text,
  // `decoded` what the compiler shows for JSX text once it has put characters
  // for references such as `&middot;`.
  datatype Node =
    | JsxText(raw: string, decoded: string, lo: nat, hi: nat)
    | Braces(form: Form, source: string, inner: seq<Node>, lo: nat, hi: nat)
    | Element(attributes: seq<Node>, children: seq<Node>, lo: nat, hi: nat)
    | Other(markup: bool, inner: seq<Node>, lo: nat, hi: nat)

  // Every node directly under this one, in source order.
  function Under(node: Node): (r: seq<Node>)
    ensures forall n | n in r :: n < node
  {
    match node
    case JsxText(_, _, _, _) => []
    case Braces(_, _, inner, _, _) => inner
    case Element(attributes, children, _, _) => attributes + children
    case Other(_, inner, _, _) => inner
  }

  // Whether the node is, or holds, an element, a self-closing element or a fragment.
  predicate HasMarkup(node: Node)
    decreases node
  {
    || node.Element?
    || (node.Other? && node.markup)
    || exists n | n in Under(node) :: HasMarkup(n)
  }

  // Siblings follow one another inside [lo, hi].
  ghost predicate Ordered(nodes: seq<Node>, lo: nat, hi: nat) {
    && (forall i | 0 <= i < |nodes| :: lo <= nodes[i].lo <= nodes[i].hi <= hi)
    && (forall i, j | 0 <= i < j < |nodes| :: nodes[i].hi <= nodes[j].lo)
  }

  // Decoding shortens a text by every reference in it, and otherwise leaves it.
  predicate Decodes(text: string, decoded: string) {
    decoded == text || |Ink(decoded)| < |Ink(text)|
  }

  // What the parser promises of a tree: nested, ordered spans, no brace in
  // JSX text, and no markup inside a literal or a plain call of `t`.
  ghost predicate WellFormed(node: Node)
    decreases node
  {
    && node.lo <= node.hi
    && Ordered(Under(node), node.lo, node.hi)
    && (forall n | n in Under(node) :: WellFormed(n))
    && (node.JsxText? ==> forall i | 0 <= i < |node.raw| :: NoBrace(node.raw[i]))
    && (node.JsxText? ==> Decodes(RenderedText(node.raw), node.decoded))
    && (node.Braces? ==> node.lo < node.hi && (node.form.Expression? || !HasMarkup(node)))
  }

  // ---- JSX text ----

  // Each line but the first loses its leading whitespace, each but the last
  // its trailing whitespace.
  function TrimmedLines(lines: seq<string>, first: bool): (r: seq<string>)
    ensures |r| == |lines|
  {
    if lines == [] then []
    else
      var head := if first then lines[0] else TrimStart(lines[0]);
      [if |lines| == 1 then head else TrimEnd(head)] + TrimmedLines(lines[1..], false)
  }

  function NonEmpty(lines: seq<string>): seq<string> {
    if lines == [] then []
    else (if lines[0] != "" then [lines[0]] else []) + NonEmpty(lines[1..])
  }

  // What JSX text puts on the screen.
  function RenderedText(raw: string): string {
    if '\n' !in raw then raw
    else Join(NonEmpty(TrimmedLines(Split(raw, '\n'), true)), " ")
  }

  // The characters of a text that are not whitespace.
  function Ink(s: string): string {
    if s == "" then "" else (if IsSpace(s[0]) then "" else [s[0]]) + Ink(s[1..])
  }

  lemma {:induction false} InkConcat(s: string, t: string)
    ensures Ink(s + t) == Ink(s) + Ink(t)
  {
    if s == "" {
      assert s + t == t;
    } else {
      assert (s + t)[1..] == s[1..] + t;
      InkConcat(s[1..], t);
    }
  }

  lemma {:induction false} InkSpace(s: string)
    requires AllSpace(s)
    ensures Ink(s) == ""
  {
    if s != "" {
      InkSpace(s[1..]);
    }
  }

  lemma InkOfHead(s: string, k: nat)
    requires k <= |s| && AllSpace(s[k..])
    ensures Ink(s[..k]) == Ink(s)
  {
    InkConcat(s[..k], s[k..]);
    InkSpace(s[k..]);
    assert s == s[..k] + s[k..];
  }

  lemma {:induction false} InkTrimStart(s: string)
    ensures Ink(TrimStart(s)) == Ink(s)
  {
    if s != "" && IsSpace(s[0]) {
      InkTrimStart(s[1..]);
    }
  }

  lemma {:induction false} InkTrimEnd(s: string)
    ensures Ink(TrimEnd(s)) == Ink(s)
  {
    if s != "" && IsSpace(s[|s| - 1]) {
      InkTrimEnd(s[..|s| - 1]);
      InkOfHead(s, |s| - 1);
    }
  }

  function InkAll(lines: seq<string>): string {
    if lines == [] then "" else Ink(lines[0]) + InkAll(lines[1..])
  }

  lemma {:induction false} InkNonEmpty(lines: seq<string>)
    ensures InkAll(NonEmpty(lines)) == InkAll(lines)
  {
    if lines != [] {
      InkNonEmpty(lines[1..]);
      var rest := NonEmpty(lines[1..]);
      if lines[0] == "" {
        assert [] + rest == rest;
        assert "" + InkAll(rest) == InkAll(rest);
      } else {
        assert ([lines[0]] + rest)[1..] == rest;
      }
    }
  }

  lemma {:induction false} InkTrimmedLines(lines: seq<string>, first: bool)
    ensures InkAll(TrimmedLines(lines, first)) == InkAll(lines)
  {
    if lines != [] {
      var head := if first then lines[0] else TrimStart(lines[0]);
      InkTrimStart(lines[0]);
      InkTrimEnd(head);
      InkTrimmedLines(lines[1..], false);
      var trimmed := TrimmedLines(lines, first);
      assert trimmed[1..] == TrimmedLines(lines[1..], false);
      assert Ink(trimmed[0]) == Ink(lines[0]);
    }
  }

  lemma {:induction false} InkJoin(lines: seq<string>, separator: string)
    requires AllSpace(separator)
    ensures Ink(Join(lines, separator)) == InkAll(lines)
  {
    if |lines| == 1 {
      assert lines[1..] == [];
    } else if |lines| > 1 {
      InkConcat(lines[0], separator);
      InkConcat(lines[0] + separator, Join(lines[1..], separator));
      InkSpace(separator);
      InkJoin(lines[1..], separator);
    }
  }

  lemma {:induction false} InkSplit(s: string)
    ensures InkAll(Split(s, '\n')) == Ink(s)
  {
    if s != "" {
      InkSplit(s[1..]);
      var rest := Split(s[1..], '\n');
      if s[0] != '\n' {
        assert [s[0]] + rest[0] == [s[0]] + rest[0];
        InkConcat([s[0]], rest[0]);
        assert Ink([s[0]]) == (if IsSpace(s[0]) then "" else [s[0]]) + Ink("");
      }
    }
  }

  // Rendering JSX text only ever moves whitespace: every other character stays,
  // in order.
  lemma RenderedTextKeepsInk(raw: string)
    ensures Ink(RenderedText(raw)) == Ink(raw)
  {
    if '\n' in raw {
      InkSplit(raw);
      InkTrimmedLines(Split(raw, '\n'), true);
      InkNonEmpty(TrimmedLines(Split(raw, '\n'), true));
      InkJoin(NonEmpty(TrimmedLines(Split(raw, '\n'), true)), " ");
    }
  }

  // Rendered text that came over several lines holds no line break.
  lemma RenderedTextIsOneLine(raw: string)
    ensures '\n' !in RenderedText(raw)
  {
    if '\n' in raw {
      LinesStayWhole(Split(raw, '\n'), true);
      NoBreakInJoin(NonEmpty(TrimmedLines(Split(raw, '\n'), true)));
    }
  }

  lemma {:induction false} LinesStayWhole(lines: seq<string>, first: bool)
    requires forall line | line in lines :: '\n' !in line
    ensures forall line | line in NonEmpty(TrimmedLines(lines, first)) :: '\n' !in line
  {
    if lines != [] {
      LinesStayWhole(lines[1..], false);
      var trimmed := TrimmedLines(lines, first);
      assert trimmed[1..] == TrimmedLines(lines[1..], false);
      PartsOfLine(lines[0]);
      PartsOfLine(TrimStart(lines[0]));
    }
  }

  lemma PartsOfLine(line: string)
    ensures '\n' !in line ==> '\n' !in TrimStart(line) && '\n' !in TrimEnd(line)
  {
    TrimStartCuts(line);
    TrimEndCuts(line);
  }

  lemma {:induction false} NoBreakInJoin(lines: seq<string>)
    requires forall line | line in lines :: '\n' !in line
    ensures '\n' !in Join(lines, " ")
  {
    if |lines| > 1 {
      NoBreakInJoin(lines[1..]);
    }
  }

  // ---- what a child is ----

  // A child as the run scanner sees it. `text` is what a literal adds to the
  // sentence, `shown` what it puts on the screen.
  datatype Part =
    | Literal(text: string, shown: string)
    | Message(key: string)
    | Value(expression: string)
    | Barrier

  // The tests in the scanner's own order: literal, then key, then value.
  function PartOf(child: Node): Part {
    match child
    case JsxText(raw, decoded, _, _) => Literal(RenderedText(raw), decoded)
    case Braces(Quoted(text), source, _, _, _) =>
      if Trim(text) == "" then Literal(if text == "" then "" else " ", text)
      else if HasMarkup(child) then Barrier
      else Value(source)
    case Braces(Call(key), _, _, _, _) => Message(key)
    case Braces(Expression, source, _, _, _) =>
      if HasMarkup(child) then Barrier else Value(source)
    case Braces(Empty, _, _, _, _) => Barrier
    case Element(_, _, _, _) => Barrier
    case Other(_, _, _, _) => Barrier
  }

  // The four tests of the scanner in one answer; a gap is a literal that is
  // only whitespace.
  datatype Kind = Gap | Wording | MessageKind | ValueKind | BarrierKind

  function KindOf(child: Node): Kind {
    match PartOf(child)
    case Literal(text, _) => if Trim(text) == "" then Gap else Wording
    case Message(_) => MessageKind
    case Value(_) => ValueKind
    case Barrier => BarrierKind
  }

  function Kinds(children: seq<Node>): (r: seq<Kind>)
    ensures |r| == |children|
    ensures forall i | 0 <= i < |children| :: r[i] == KindOf(children[i])
  {
    seq(|children|, i requires 0 <= i < |children| => KindOf(children[i]))
  }
}
