// Which command the words of a command line name
// (packages/cli/src/contract.ts, findCommand).
module Commands {
  import opened Text

  datatype Command = Command(name: string, id: string)

  datatype Found = Found(command: Command, consumed: nat)

  // The lower-cased argument list begins with the lower-cased name, word by
  // word as the strings have it.
  predicate Names(name: string, words: seq<string>) {
    var joined, lower := LowerAll(Join(words, " ")), LowerAll(name);
    joined == lower || lower + " " <= joined
  }

  function WordsOf(name: string): seq<string> { Split(name, ' ') }

  function Lowered(words: seq<string>): (r: seq<string>)
    ensures |r| == |words|
  {
    if words == [] then [] else [LowerAll(words[0])] + Lowered(words[1..])
  }

  // The name's words are the first words of the list, whatever their case.
  predicate Begins(name: string, words: seq<string>) {
    Lowered(WordsOf(name)) <= Lowered(words)
  }

  predicate SpaceFree(words: seq<string>) { forall w | w in words :: ' ' !in w }

  lemma LowerParts(a: string, b: string)
    ensures LowerAll(a + b) == LowerAll(a) + LowerAll(b)
  {
  }

  lemma {:induction false} LowerJoin(words: seq<string>)
    ensures LowerAll(Join(words, " ")) == Join(Lowered(words), " ")
  {
    if |words| > 1 {
      LowerJoin(words[1..]);
      LowerParts(words[0] + " ", Join(words[1..], " "));
      LowerParts(words[0], " ");
      assert LowerAll(" ") == " ";
    }
  }

  lemma {:induction false} LoweredSpaceFree(words: seq<string>)
    requires SpaceFree(words)
    ensures SpaceFree(Lowered(words))
  {
    if words != [] {
      assert words[0] in words;
      forall w | w in words[1..] ensures ' ' !in w {
      }
      LoweredSpaceFree(words[1..]);
      var lower := LowerAll(words[0]);
      forall k | 0 <= k < |lower| ensures lower[k] != ' ' {
        assert words[0][k] in words[0];
      }
    }
  }

  lemma LowerSplit(name: string)
    ensures Split(LowerAll(name), ' ') == Lowered(WordsOf(name))
  {
    JoinSplit(name, ' ');
    LowerJoin(WordsOf(name));
    LoweredSpaceFree(WordsOf(name));
    SplitJoin(Lowered(WordsOf(name)), ' ');
  }

  // The string test is the test on words, for words that hold no space. (With
  // no words at all it differs for the empty name alone.)
  lemma NamesIsBegins(name: string, words: seq<string>)
    requires SpaceFree(words) && (words != [] || name != "")
    ensures Names(name, words) <==> Begins(name, words)
  {
    LowerJoin(words);
    LowerSplit(name);
    if words == [] {
      assert Join(words, " ") == "" && LowerAll(name) != "";
    } else {
      LoweredSpaceFree(words);
      SplitJoin(Lowered(words), ' ');
      WholePrefix(LowerAll(name), ' ', Join(Lowered(words), " "));
    }
  }

  // The first command the words name, and how many words its name has.
  function FindCommand(commands: seq<Command>, words: seq<string>): (found: Option<Found>)
    ensures found == None <==> forall c | c in commands :: !Names(c.name, words)
    ensures found.Some? ==> found.value.command in commands && Names(found.value.command.name, words)
  {
    if commands == [] then None
    else if Names(commands[0].name, words) then Some(Found(commands[0], |WordsOf(commands[0].name)|))
    else FindCommand(commands[1..], words)
  }

  lemma {:induction false} Consumes(commands: seq<Command>, words: seq<string>)
    requires FindCommand(commands, words).Some?
    ensures var found := FindCommand(commands, words).value;
            found.consumed == |WordsOf(found.command.name)|
  {
    if !Names(commands[0].name, words) {
      Consumes(commands[1..], words);
    }
  }

  // For words that hold no space: a command is found exactly when the words
  // begin with some name, and exactly that name's words are consumed.
  lemma FoundByWords(commands: seq<Command>, words: seq<string>)
    requires SpaceFree(words) && words != []
    ensures FindCommand(commands, words) == None <==> forall c | c in commands :: !Begins(c.name, words)
    ensures FindCommand(commands, words).Some? ==>
              var found := FindCommand(commands, words).value;
              && found.consumed <= |words|
              && Lowered(WordsOf(found.command.name)) == Lowered(words)[..found.consumed]
  {
    forall c | c in commands ensures Names(c.name, words) <==> Begins(c.name, words) {
      NamesIsBegins(c.name, words);
    }
    if FindCommand(commands, words).Some? {
      Consumes(commands, words);
    }
  }

  // One argument that holds a space can pass for two words: more are consumed
  // than were given.
  lemma QuotedWordsMiscount()
    ensures FindCommand([Command("a b", "")], ["a b"]) == Some(Found(Command("a b", ""), 2))
  {
    assert Split("b", ' ') == ["b"] by { SplitNone("b", ' '); }
    SplitPrefix("a", ' ', "b");
    assert "a" + [' '] + "b" == "a b";
    assert Join(["a b"], " ") == "a b";
  }

  lemma {:induction false} FirstIsFound(commands: seq<Command>, words: seq<string>, k: nat)
    requires SpaceFree(words) && words != [] && k < |commands|
    requires Begins(commands[k].name, words) && forall j | 0 <= j < k :: !Begins(commands[j].name, words)
    ensures FindCommand(commands, words) == Some(Found(commands[k], |WordsOf(commands[k].name)|))
  {
    NamesIsBegins(commands[0].name, words);
    if k > 0 {
      assert !Names(commands[0].name, words);
      FirstIsFound(commands[1..], words, k - 1);
    }
  }

  // Neither name begins the other.
  predicate Apart(a: Command, b: Command) {
    !Begins(a.name, WordsOf(b.name)) && !Begins(b.name, WordsOf(a.name))
  }

  ghost predicate PrefixFree(commands: seq<Command>) {
    forall a, b | a in commands && b in commands && a != b :: Apart(a, b)
  }

  lemma BothBegin(a: Command, b: Command, words: seq<string>)
    requires Begins(a.name, words) && Begins(b.name, words)
    ensures !Apart(a, b)
  {
    var x, y, z := Lowered(WordsOf(a.name)), Lowered(WordsOf(b.name)), Lowered(words);
    assert x == z[..|x|] && y == z[..|y|];
    assert if |x| <= |y| then x <= y else y <= x;
  }

  // Of commands none of whose names begins another, the answer is the same in
  // whatever order, and however often, they are listed.
  lemma OrderDoesNotMatter(commands: seq<Command>, others: seq<Command>, words: seq<string>)
    requires SpaceFree(words) && words != [] && PrefixFree(commands)
    requires forall c :: c in commands <==> c in others
    ensures FindCommand(commands, words) == FindCommand(others, words)
  {
    var found, other := FindCommand(commands, words), FindCommand(others, words);
    if found.Some? && other.Some? {
      Consumes(commands, words);
      Consumes(others, words);
      NamesIsBegins(found.value.command.name, words);
      NamesIsBegins(other.value.command.name, words);
      BothBegin(found.value.command, other.value.command, words);
    }
  }

  // And for two commands that are not apart it does matter: the longer name
  // finds whichever comes first.
  lemma OrderMatters(a: Command, b: Command)
    requires a != b && Begins(a.name, WordsOf(b.name))
    ensures FindCommand([a, b], WordsOf(b.name)) == Some(Found(a, |WordsOf(a.name)|))
    ensures FindCommand([b, a], WordsOf(b.name)) == Some(Found(b, |WordsOf(b.name)|))
  {
    FirstIsFound([a, b], WordsOf(b.name), 0);
    FirstIsFound([b, a], WordsOf(b.name), 0);
  }
}
