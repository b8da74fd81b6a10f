// The licence policy kept in two places: reading the workflow's folded list
// back, and what the gate reports (scripts/check-licences.ts,
// checkWorkflowAgrees and checkClearedPackagesAgree).
module LicenceList {
  import opened Text

  // The script's own lists.
  datatype Policy = Policy(allowed: seq<string>, aliases: set<string>, cleared: seq<string>)

  datatype Problem =
    | Unreadable
    | ReadEmpty
    | OnlyInWorkflow(licence: string)
    | OnlyInScript(licence: string)
    | ClearedUnlisted
    | ClearedOnlyInWorkflow(entry: string)
    | ClearedOnlyInScript(entry: string)

  const KEY := "allow-licenses:"
  const FOLDED := ">-"
  const CLEARED_KEY := "allow-dependencies-licenses:"

  // ---- reading ----

  // The key on a line of its own, opening a folded scalar.
  predicate IsKey(line: string) {
    var said := Trim(line);
    KEY <= said && TrimStart(said[|KEY|..]) == FOLDED
  }

  // Where a line's first character that is not whitespace stands.
  function Indent(line: string): (k: Option<nat>)
    ensures k.Some? ==> k.value < |line| && AllSpace(line[..k.value]) && !IsSpace(line[k.value])
    ensures k == None ==> AllSpace(line)
  {
    if line == "" then None
    else if !IsSpace(line[0]) then Some(0)
    else match Indent(line[1..]) case None => None case Some(k) => Some(k + 1)
  }

  // A line of the scalar: indented past the key, and not a comment.
  predicate Continues(line: string, keyIndent: int) {
    Indent(line).Some? && Indent(line).value > keyIndent && !("#" <= Trim(line))
  }

  function IndentOr(line: string): int { match Indent(line) case None => -1 case Some(k) => k }

  function Block(lines: seq<string>, keyIndent: int): seq<string> {
    if lines == [] || !Continues(lines[0], keyIndent) then []
    else [Trim(lines[0])] + Block(lines[1..], keyIndent)
  }

  // The entries of a comma-separated list, trimmed, blanks dropped.
  function Entries(pieces: seq<string>): seq<string> {
    if pieces == [] then []
    else (if Trim(pieces[0]) != "" then [Trim(pieces[0])] else []) + Entries(pieces[1..])
  }

  function KeyLine(lines: seq<string>): (k: nat)
    ensures k <= |lines| && (k < |lines| ==> IsKey(lines[k]))
    ensures forall i | 0 <= i < k :: !IsKey(lines[i])
  {
    if lines == [] || IsKey(lines[0]) then 0 else 1 + KeyLine(lines[1..])
  }

  // The list the workflow gives, if its key can be found.
  function Listed(yaml: string): Option<seq<string>> {
    var lines := Split(yaml, '\n');
    var start := KeyLine(lines);
    if start == |lines| then None
    else Some(Entries(Split(Join(Block(lines[start + 1..], IndentOr(lines[start])), " "), ',')))
  }

  predicate IsClearedKey(line: string) { CLEARED_KEY <= TrimStart(line) }

  function AfterColon(line: string): string {
    if line == "" then "" else if line[0] == ':' then line[1..] else AfterColon(line[1..])
  }

  // The cleared packages the workflow gives on one line, if it has the line.
  function ClearedIn(lines: seq<string>): Option<seq<string>> {
    if lines == [] then None
    else if IsClearedKey(lines[0]) then Some(Entries(Split(AfterColon(lines[0]), ',')))
    else ClearedIn(lines[1..])
  }

  // ---- the gate ----

  function Cleared(yaml: string): Option<seq<string>> { ClearedIn(Split(yaml, '\n')) }

  ghost predicate SameMembers(a: seq<string>, b: seq<string>) { forall x :: x in a <==> x in b }

  // What agreement means for the cleared packages.
  ghost predicate ClearedAgree(yaml: string, p: Policy) {
    match Cleared(yaml)
    case None => p.cleared == []
    case Some(entries) => SameMembers(entries, p.cleared)
  }

  // And for the licences: a list that can be read and is not empty, equal to
  // the script's but for the deprecated spellings it may leave out.
  ghost predicate LicencesAgree(yaml: string, p: Policy) {
    match Listed(yaml)
    case None => false
    case Some(entries) =>
      && entries != []
      && (forall x :: x in entries ==> x in p.allowed)
      && (forall x :: x in p.allowed ==> x in entries || x in p.aliases)
  }

  // A set keeps the first of equal entries, in order.
  function Distinct(items: seq<string>): (r: seq<string>)
    ensures forall x :: x in r <==> x in items
  {
    if items == [] then []
    else
      var front, last := Distinct(items[..|items| - 1]), items[|items| - 1];
      if last in front then front else front + [last]
  }

  method CheckClearedPackagesAgree(yaml: string, p: Policy) returns (problems: seq<Problem>)
    ensures problems == [] <==> ClearedAgree(yaml, p)
    ensures forall q | q in problems :: q.ClearedUnlisted? || q.ClearedOnlyInWorkflow? || q.ClearedOnlyInScript?
    ensures Cleared(yaml).Some? ==>
              forall x :: ClearedOnlyInWorkflow(x) in problems <==> x in Cleared(yaml).value && x !in p.cleared
    ensures Cleared(yaml).Some? ==>
              forall x :: ClearedOnlyInScript(x) in problems <==> x in p.cleared && x !in Cleared(yaml).value
  {
    var field := Cleared(yaml);
    if field == None {
      return if p.cleared == [] then [] else [ClearedUnlisted];
    }
    var workflow := Distinct(field.value);
    problems := [];
    for k := 0 to |workflow|
      invariant forall q | q in problems :: q.ClearedOnlyInWorkflow?
      invariant forall x :: ClearedOnlyInWorkflow(x) in problems <==> x in workflow[..k] && x !in p.cleared
    {
      if workflow[k] !in p.cleared {
        problems := problems + [ClearedOnlyInWorkflow(workflow[k])];
      }
    }
    for k := 0 to |p.cleared|
      invariant forall q | q in problems :: q.ClearedOnlyInWorkflow? || q.ClearedOnlyInScript?
      invariant forall x :: ClearedOnlyInWorkflow(x) in problems <==> x in workflow && x !in p.cleared
      invariant forall x :: ClearedOnlyInScript(x) in problems <==> x in p.cleared[..k] && x !in workflow
    {
      if p.cleared[k] !in workflow {
        problems := problems + [ClearedOnlyInScript(p.cleared[k])];
      }
    }
    if problems != [] {
      assert problems[0] in problems;
    }
  }

  method CollectBlock(lines: seq<string>, start: nat, keyIndent: int) returns (collected: seq<string>)
    requires start < |lines|
    ensures collected == Block(lines[start + 1..], keyIndent)
  {
    collected := [];
    var i := start + 1;
    while i < |lines|
      invariant start < i <= |lines|
      invariant Block(lines[start + 1..], keyIndent) == collected + Block(lines[i..], keyIndent)
    {
      var line := lines[i];
      if !Continues(line, keyIndent) {
        assert Block(lines[i..], keyIndent) == [];
        return;
      }
      assert lines[i..][1..] == lines[i + 1..];
      Regroup(collected, [Trim(line)], Block(lines[i + 1..], keyIndent));
      collected := collected + [Trim(line)];
      i := i + 1;
    }
  }

  method CheckLicences(workflow: seq<string>, p: Policy) returns (problems: seq<Problem>)
    ensures forall q | q in problems :: q.OnlyInWorkflow? || q.OnlyInScript?
    ensures forall x :: OnlyInWorkflow(x) in problems <==> x in workflow && x !in p.allowed
    ensures forall x :: OnlyInScript(x) in problems <==> x in p.allowed && x !in workflow && x !in p.aliases
  {
    problems := [];
    for k := 0 to |workflow|
      invariant forall q | q in problems :: q.OnlyInWorkflow?
      invariant forall x :: OnlyInWorkflow(x) in problems <==> x in workflow[..k] && x !in p.allowed
    {
      if workflow[k] !in p.allowed {
        problems := problems + [OnlyInWorkflow(workflow[k])];
      }
    }
    for k := 0 to |p.allowed|
      invariant forall q | q in problems :: q.OnlyInWorkflow? || q.OnlyInScript?
      invariant forall x :: OnlyInWorkflow(x) in problems <==> x in workflow && x !in p.allowed
      invariant forall x ::
        OnlyInScript(x) in problems <==> x in p.allowed[..k] && x !in workflow && x !in p.aliases
    {
      if p.allowed[k] !in workflow && p.allowed[k] !in p.aliases {
        problems := problems + [OnlyInScript(p.allowed[k])];
      }
    }
  }

  // The gate reports nothing exactly when both lists agree.
  method CheckWorkflowAgrees(yaml: string, p: Policy) returns (problems: seq<Problem>)
    ensures problems == [] <==> LicencesAgree(yaml, p) && ClearedAgree(yaml, p)
  {
    var lines := Split(yaml, '\n');
    var start := KeyLine(lines);
    if start == |lines| {
      return [Unreadable];
    }
    var collected := CollectBlock(lines, start, IndentOr(lines[start]));
    var workflow := Distinct(Entries(Split(Join(collected, " "), ',')));
    if workflow == [] {
      return [ReadEmpty];
    }
    problems := CheckLicences(workflow, p);
    LicencesVerdict(yaml, p, workflow, problems);
    var more := CheckClearedPackagesAgree(yaml, p);
    problems := problems + more;
  }

  // No licence is reported exactly when the lists agree.
  lemma LicencesVerdict(yaml: string, p: Policy, workflow: seq<string>, problems: seq<Problem>)
    requires Listed(yaml).Some? && workflow == Distinct(Listed(yaml).value) && workflow != []
    requires forall q | q in problems :: q.OnlyInWorkflow? || q.OnlyInScript?
    requires forall x :: OnlyInWorkflow(x) in problems <==> x in workflow && x !in p.allowed
    requires forall x :: OnlyInScript(x) in problems <==> x in p.allowed && x !in workflow && x !in p.aliases
    ensures problems == [] <==> LicencesAgree(yaml, p)
  {
    NoneReported(problems);
    assert workflow[0] in Listed(yaml).value;
  }

  lemma NoneReported(problems: seq<Problem>)
    requires forall q | q in problems :: q.OnlyInWorkflow? || q.OnlyInScript?
    ensures problems == [] <==> forall x :: OnlyInWorkflow(x) !in problems && OnlyInScript(x) !in problems
  {
    if problems != [] {
      var q := problems[0];
      assert q in problems && (q == OnlyInWorkflow(q.licence) || q == OnlyInScript(q.licence));
    }
  }

  // ---- printing the list, and reading it back ----

  // An entry of the list with the whitespace around it; between two commas
  // there may be none.
  datatype Item = Item(left: string, id: string, right: string)

  // A line of the scalar: its indentation, and what it says.
  datatype Row = Row(pad: string, text: string, trail: string)

  datatype Field = Field(
    before: seq<string>, pad: string, gap: string, items: seq<Item>, rows: seq<Row>, after: seq<string>)

  // Text that begins and ends with something to see.
  predicate IsTrimmed(s: string) { s != "" && !IsSpace(s[0]) && !IsSpace(s[|s| - 1]) }

  predicate IsItem(i: Item) { AllSpace(i.left) && AllSpace(i.right) && ',' !in i.id && (i.id == "" || IsTrimmed(i.id)) }

  predicate IsRow(r: Row, keyIndent: nat) {
    && AllSpace(r.pad) && AllSpace(r.trail) && IsTrimmed(r.text) && r.text[0] != '#' && |r.pad| > keyIndent
    && '\n' !in r.pad && '\n' !in r.text && '\n' !in r.trail
  }

  function Spaced(i: Item): string { i.left + i.id + i.right }

  function SpacedAll(items: seq<Item>): (r: seq<string>)
    ensures |r| == |items|
  {
    if items == [] then [] else [Spaced(items[0])] + SpacedAll(items[1..])
  }

  // The list on one line.
  function ListText(items: seq<Item>): string { Join(SpacedAll(items), ",") }

  function Texts(rows: seq<Row>): seq<string> {
    if rows == [] then [] else [rows[0].text] + Texts(rows[1..])
  }

  // The rows, folded, spell the list; where it is broken, and where the commas
  // and the whitespace stand, is free. The lines around the field hold no other
  // key of that name, and the first one after it does not go on with it.
  predicate IsField(f: Field) {
    && (forall line | line in f.before :: '\n' !in line && !IsKey(line))
    && (forall line | line in f.after :: '\n' !in line)
    && AllSpace(f.pad) && '\n' !in f.pad && AllSpace(f.gap) && '\n' !in f.gap
    && (forall i | i in f.items :: IsItem(i))
    && (forall r | r in f.rows :: IsRow(r, |f.pad|))
    && Join(Texts(f.rows), " ") == ListText(f.items)
    && (f.after != [] ==> !Continues(f.after[0], |f.pad|))
  }

  function RowLine(r: Row): string { r.pad + r.text + r.trail }

  function RowLines(rows: seq<Row>): seq<string> {
    if rows == [] then [] else [RowLine(rows[0])] + RowLines(rows[1..])
  }

  function KeyText(f: Field): string { f.pad + (KEY + f.gap + FOLDED) }

  function Lines(f: Field): seq<string> { f.before + [KeyText(f)] + RowLines(f.rows) + f.after }

  function Print(f: Field): string { Join(Lines(f), "\n") }

  // The identifiers, in order.
  function Ids(items: seq<Item>): seq<string> {
    if items == [] then [] else (if items[0].id == "" then [] else [items[0].id]) + Ids(items[1..])
  }

  lemma {:induction false} PadIndent(pad: string, s: string)
    requires AllSpace(pad) && s != "" && !IsSpace(s[0])
    ensures Indent(pad + s) == Some(|pad|)
  {
    if pad == "" {
      assert pad + s == s;
    } else {
      assert (pad + s)[1..] == pad[1..] + s;
      PadIndent(pad[1..], s);
    }
  }

  lemma PaddedText(pad: string, s: string, trail: string)
    requires AllSpace(pad) && IsTrimmed(s) && AllSpace(trail)
    ensures Trim(pad + s + trail) == s && Indent(pad + s + trail) == Some(|pad|)
  {
    TrimPadded(pad, s, trail);
    Regroup(pad, s, trail);
    assert (s + trail)[0] == s[0];
    PadIndent(pad, s + trail);
  }

  lemma BlockStep(line: string, rest: seq<string>, said: string, keyIndent: nat)
    requires Continues(line, keyIndent) && Trim(line) == said
    ensures Block([line] + rest, keyIndent) == [said] + Block(rest, keyIndent)
  {
    assert ([line] + rest)[1..] == rest;
  }

  lemma {:induction false} BlockReadBack(rows: seq<Row>, after: seq<string>, keyIndent: nat)
    requires forall r | r in rows :: IsRow(r, keyIndent)
    requires after != [] ==> !Continues(after[0], keyIndent)
    ensures Block(RowLines(rows) + after, keyIndent) == Texts(rows)
  {
    if rows == [] {
      assert RowLines(rows) + after == after;
    } else {
      var r := rows[0];
      assert IsRow(r, keyIndent);
      PaddedText(r.pad, r.text, r.trail);
      BlockReadBack(rows[1..], after, keyIndent);
      Regroup([RowLine(r)], RowLines(rows[1..]), after);
      BlockStep(RowLine(r), RowLines(rows[1..]) + after, r.text, keyIndent);
    }
  }

  lemma SpacedReads(i: Item)
    requires IsItem(i)
    ensures ',' !in Spaced(i) && Trim(Spaced(i)) == i.id
  {
    TrimPadded(i.left, i.id, i.right);
  }

  lemma {:induction false} EntriesReadBack(items: seq<Item>)
    requires forall i | i in items :: IsItem(i)
    ensures Entries(SpacedAll(items)) == Ids(items)
    ensures forall piece | piece in SpacedAll(items) :: ',' !in piece
  {
    if items != [] {
      EntriesReadBack(items[1..]);
      SpacedReads(items[0]);
      assert SpacedAll(items)[1..] == SpacedAll(items[1..]);
    }
  }

  // Splitting at the commas and trimming gives the identifiers back.
  lemma ListReadBack(items: seq<Item>)
    requires forall i | i in items :: IsItem(i)
    ensures Entries(Split(ListText(items), ',')) == Ids(items)
  {
    EntriesReadBack(items);
    if items == [] {
      assert Split("", ',') == [""] && Entries([""]) == Entries([]) == [];
    } else {
      SplitJoin(SpacedAll(items), ',');
    }
  }

  lemma {:induction false} NoBreaks(rows: seq<Row>, keyIndent: nat)
    requires forall r | r in rows :: IsRow(r, keyIndent)
    ensures forall line | line in RowLines(rows) :: '\n' !in line
  {
    if rows != [] {
      assert IsRow(rows[0], keyIndent);
      NoBreaks(rows[1..], keyIndent);
    }
  }

  lemma KeyReads(gap: string)
    requires AllSpace(gap) && '\n' !in gap
    ensures IsTrimmed(KEY + gap + FOLDED) && '\n' !in KEY + gap + FOLDED
    ensures KEY <= KEY + gap + FOLDED && TrimStart((KEY + gap + FOLDED)[|KEY|..]) == FOLDED
  {
    assert '\n' !in KEY && '\n' !in FOLDED;
    assert (KEY + gap + FOLDED)[|KEY|..] == gap + FOLDED;
    TrimStartPadded(gap, FOLDED);
    KeyEnds(KEY + gap + FOLDED, gap);
  }

  lemma KeyEnds(said: string, gap: string)
    requires said == KEY + gap + FOLDED
    ensures said[0] == 'a' && said[|said| - 1] == '-'
  {
    assert said[|said| - 1] == FOLDED[1];
  }

  lemma KeyIsKey(f: Field)
    requires AllSpace(f.pad) && AllSpace(f.gap) && '\n' !in f.gap
    ensures IsKey(KeyText(f)) && IndentOr(KeyText(f)) == |f.pad|
    ensures '\n' !in f.pad ==> '\n' !in KeyText(f)
  {
    KeyReads(f.gap);
    PaddedText(f.pad, KEY + f.gap + FOLDED, "");
    assert KeyText(f) + "" == KeyText(f);
  }

  lemma {:induction false} KeyFound(before: seq<string>, key: string, rest: seq<string>)
    requires IsKey(key) && forall line | line in before :: !IsKey(line)
    ensures KeyLine(before + [key] + rest) == |before|
  {
    if before == [] {
      assert before + [key] + rest == [key] + rest;
    } else {
      assert (before + [key] + rest)[1..] == before[1..] + [key] + rest;
      KeyFound(before[1..], key, rest);
    }
  }

  // However identifiers are laid out in the folded scalar, and whatever stands
  // around it, reading the field gives them back, in order.
  lemma FieldReadBack(f: Field)
    requires IsField(f)
    ensures Listed(Print(f)) == Some(Ids(f.items))
  {
    FieldLines(f);
    ListedBehind(Print(f), f.before, KeyText(f), RowLines(f.rows) + f.after);
    BlockReadBack(f.rows, f.after, |f.pad|);
    ListReadBack(f.items);
  }

  lemma FieldLines(f: Field)
    requires IsField(f)
    ensures
      var rest := RowLines(f.rows) + f.after;
      && Split(Print(f), '\n') == f.before + [KeyText(f)] + rest
      && KeyLine(f.before + [KeyText(f)] + rest) == |f.before| && IndentOr(KeyText(f)) == |f.pad|
  {
    LinesReadBack(f);
    KeyIsKey(f);
    Regroup(f.before + [KeyText(f)], RowLines(f.rows), f.after);
    KeyFound(f.before, KeyText(f), RowLines(f.rows) + f.after);
  }

  // What is listed is read off the lines behind the key.
  lemma ListedBehind(yaml: string, before: seq<string>, key: string, rest: seq<string>)
    requires Split(yaml, '\n') == before + [key] + rest && KeyLine(before + [key] + rest) == |before|
    ensures Listed(yaml) == Some(Entries(Split(Join(Block(rest, IndentOr(key)), " "), ',')))
  {
    var lines := before + [key] + rest;
    assert lines[|before|] == key && lines[|before| + 1..] == rest;
  }

  lemma LinesReadBack(f: Field)
    requires IsField(f)
    ensures Split(Print(f), '\n') == Lines(f)
  {
    KeyIsKey(f);
    NoBreaks(f.rows, |f.pad|);
    SplitJoin(Lines(f), '\n');
  }
}
