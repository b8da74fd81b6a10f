// Which pages a reader can get to from the documentation index
// (scripts/check-docs.ts, linksIn and the reachability check).
module DocsReach {
  import opened Text

  // ---- the links of a page ----

  // The text before the first c, if there is one.
  function Upto(s: string, c: char): (r: Option<string>)
    ensures r == None <==> c !in s
    ensures r.Some? ==> |r.value| < |s| && s[..|r.value|] == r.value && s[|r.value|] == c && c !in r.value
  {
    if s == "" then None
    else if s[0] == c then Some("")
    else match Upto(s[1..], c) case None => None case Some(head) => Some([s[0]] + head)
  }

  // The target right here, as `(target)`.
  function TargetAt(s: string): (r: Option<string>)
    ensures r.Some? ==> |r.value| + 2 <= |s|
  {
    if s == "" || s[0] != '(' then None
    else
      var target := Upto(s[1..], ')');
      if target == Some("") then None else target
  }

  // The target of a link that starts right here, as `[text](target)`, and how
  // much of the line it takes.
  function LinkAt(s: string): (r: Option<(string, nat)>)
    ensures r.Some? ==> 0 < r.value.1 <= |s|
  {
    if s == "" || s[0] != '[' then None
    else
      match Upto(s[1..], ']')
      case None => None
      case Some(text) =>
        match TargetAt(s[|text| + 2..])
        case None => None
        case Some(target) => Some((target, |text| + |target| + 4))
  }

  // Every link on a line, from the left, none overlapping another.
  function LinksOn(line: string): seq<string>
    decreases |line|
  {
    if line == "" then []
    else
      match LinkAt(line)
      case None => LinksOn(line[1..])
      case Some((target, length)) => [target] + LinksOn(line[length..])
  }

  // A link as it is written, after text that opens no bracket.
  datatype Written = Written(before: string, text: string, target: string)

  predicate IsLink(w: Written) {
    '[' !in w.before && ']' !in w.text && w.target != "" && ')' !in w.target
  }

  function AsLink(text: string, target: string): string { "[" + text + "](" + target + ")" }

  function Line(links: seq<Written>, tail: string): string {
    if links == [] then tail
    else links[0].before + AsLink(links[0].text, links[0].target) + Line(links[1..], tail)
  }

  function Targets(links: seq<Written>): seq<string> {
    if links == [] then [] else [links[0].target] + Targets(links[1..])
  }

  lemma {:induction false} NoBracketNoLinks(before: string, rest: string)
    requires '[' !in before
    ensures LinksOn(before + rest) == LinksOn(rest)
  {
    if before == "" {
      assert before + rest == rest;
    } else {
      assert (before + rest)[1..] == before[1..] + rest;
      assert (before + rest)[0] == before[0];
      NoBracketNoLinks(before[1..], rest);
    }
  }

  lemma {:induction false} UptoFirst(head: string, c: char, tail: string)
    requires c !in head
    ensures Upto(head + [c] + tail, c) == Some(head)
  {
    if head == "" {
      assert head + [c] + tail == [c] + tail;
    } else {
      assert (head + [c] + tail)[1..] == head[1..] + [c] + tail;
      UptoFirst(head[1..], c, tail);
      assert (head + [c] + tail)[0] == head[0] && [head[0]] + head[1..] == head;
    }
  }

  lemma LinkReadBack(text: string, target: string, rest: string)
    requires ']' !in text && target != "" && ')' !in target
    ensures LinkAt(AsLink(text, target) + rest) == Some((target, |text| + |target| + 4))
  {
    LinkParts(text, target, rest);
    TargetReadBack(target, rest);
    LinkFound(AsLink(text, target) + rest, text, ['('] + target + [')'] + rest, target);
  }

  lemma LinkFound(s: string, text: string, after: string, target: string)
    requires s != "" && s[0] == '[' && s[1..] == text + [']'] + after && ']' !in text
    requires s[|text| + 2..] == after && TargetAt(after) == Some(target)
    ensures LinkAt(s) == Some((target, |text| + |target| + 4))
  {
    UptoFirst(text, ']', after);
    assert Upto(s[1..], ']') == Some(text);
  }

  lemma TargetReadBack(target: string, rest: string)
    requires target != "" && ')' !in target
    ensures TargetAt(['('] + target + [')'] + rest) == Some(target)
  {
    var after := ['('] + target + [')'] + rest;
    assert after[0] == '(' && after[1..] == target + [')'] + rest;
    UptoFirst(target, ')', rest);
  }

  lemma LinkParts(text: string, target: string, rest: string)
    ensures var s, after := AsLink(text, target) + rest, ['('] + target + [')'] + rest;
            s != "" && s[0] == '[' && s[1..] == text + [']'] + after && s[|text| + 2..] == after
  {
    var s, after := AsLink(text, target) + rest, ['('] + target + [')'] + rest;
    assert s == ['['] + (text + [']'] + after);
    assert s == (['['] + text + [']']) + after;
  }

  // Whatever links are written on a line are the links read from it.
  lemma {:induction false} LinksReadBack(links: seq<Written>, tail: string)
    requires forall w | w in links :: IsLink(w)
    requires '[' !in tail
    ensures LinksOn(Line(links, tail)) == Targets(links)
  {
    if links == [] {
      assert tail + "" == tail;
      NoBracketNoLinks(tail, "");
    } else {
      var w, rest := links[0], Line(links[1..], tail);
      assert w in links && IsLink(w);
      var link := AsLink(w.text, w.target);
      assert Line(links, tail) == w.before + (link + rest);
      NoBracketNoLinks(w.before, link + rest);
      LinkReadBack(w.text, w.target, rest);
      assert (link + rest)[|link|..] == rest;
      LinksReadBack(links[1..], tail);
    }
  }

  // A line whose first ink is a fence.
  predicate IsFence(line: string) {
    if line != "" && IsSpace(line[0]) then IsFence(line[1..]) else "```" <= line
  }

  lemma {:induction false} FenceAfterTrim(line: string)
    ensures IsFence(line) <==> "```" <= TrimStart(line)
  {
    if line != "" && IsSpace(line[0]) {
      FenceAfterTrim(line[1..]);
    }
  }

  // How many fence lines come before line k.
  function FencesBefore(lines: seq<string>, k: nat): nat
    requires k <= |lines|
  {
    if k == 0 then 0 else FencesBefore(lines, k - 1) + if IsFence(lines[k - 1]) then 1 else 0
  }

  // Whether line k comes after an opening fence that is not closed yet.
  predicate Fenced(lines: seq<string>, k: nat)
    requires k <= |lines|
  {
    k > 0 && Fenced(lines, k - 1) != IsFence(lines[k - 1])
  }

  predicate Odd(n: nat) { n > 0 && !Odd(n - 1) }

  lemma {:induction false} FencedIsOdd(lines: seq<string>, k: nat)
    requires k <= |lines|
    ensures Fenced(lines, k) <==> Odd(FencesBefore(lines, k))
  {
    if k > 0 {
      FencedIsOdd(lines, k - 1);
    }
  }

  // A line of prose: not a fence, and not between an opening fence and its end.
  predicate IsProse(lines: seq<string>, k: nat)
    requires k < |lines|
  {
    !IsFence(lines[k]) && !Fenced(lines, k)
  }

  function LinksBefore(lines: seq<string>, k: nat): seq<string>
    requires k <= |lines|
  {
    if k == 0 then []
    else LinksBefore(lines, k - 1) + if IsProse(lines, k - 1) then LinksOn(lines[k - 1]) else []
  }

  function LinksOf(source: string): seq<string> {
    var lines := Split(source, '\n');
    LinksBefore(lines, |lines|)
  }

  // The target of a link on one of the first n lines that are prose.
  ghost predicate InProse(lines: seq<string>, n: nat, target: string)
    requires n <= |lines|
  {
    exists k :: 0 <= k < n && IsProse(lines, k) && target in LinksOn(lines[k])
  }

  // A page's links are those of its prose: what a fence holds adds none.
  lemma {:induction false} LinksAreOfProse(lines: seq<string>, n: nat, target: string)
    requires n <= |lines|
    ensures target in LinksBefore(lines, n) <==> InProse(lines, n, target)
  {
    if n > 0 {
      var here := IsProse(lines, n - 1) && target in LinksOn(lines[n - 1]);
      LinksAreOfProse(lines, n - 1, target);
      assert target in LinksBefore(lines, n) <==> target in LinksBefore(lines, n - 1) || here;
      OneMoreLine(lines, n, target);
    }
  }

  lemma OneMoreLine(lines: seq<string>, n: nat, target: string)
    requires 0 < n <= |lines|
    ensures InProse(lines, n, target) <==>
              InProse(lines, n - 1, target) || (IsProse(lines, n - 1) && target in LinksOn(lines[n - 1]))
  {
    if InProse(lines, n, target) {
      var k :| 0 <= k < n && IsProse(lines, k) && target in LinksOn(lines[k]);
      assert k < n - 1 ==> InProse(lines, n - 1, target);
    }
    if InProse(lines, n - 1, target) {
      var k :| 0 <= k < n - 1 && IsProse(lines, k) && target in LinksOn(lines[k]);
      assert InProse(lines, n, target);
    }
  }

  method LinksIn(source: string) returns (links: seq<string>)
    ensures links == LinksOf(source)
  {
    links := [];
    var inFence := false;
    var lines := Split(source, '\n');
    for k := 0 to |lines|
      invariant inFence == Fenced(lines, k)
      invariant links == LinksBefore(lines, k)
    {
      if IsFence(lines[k]) {
        inFence := !inFence;
        continue;
      }
      if inFence {
        continue;
      }
      links := links + LinksOn(lines[k]);
    }
  }

  // ---- the search ----

  const INDEX := "docs/README.md"

  predicate IsExternal(target: string) {
    || "http:" <= target || "https:" <= target || "mailto:" <= target || "#" <= target
  }

  // The pages the check owns, what they say, and how a relative path on a page
  // resolves to one from the root; and the trees whose pages need no link.
  datatype Site = Site(pages: seq<string>, exempt: seq<string>, text: string -> string,
                       resolve: (string, string) -> string)

  function Resolved(site: Site, page: string, target: string): string {
    site.resolve(page, Split(target, '#')[0])
  }

  predicate EndsWith(s: string, end: string) { |s| >= |end| && s[|s| - |end|..] == end }

  // Following a link from one page leads to a page the check owns.
  predicate Follows(site: Site, page: string, target: string, to: string) {
    !IsExternal(target) && Resolved(site, page, target) == to && EndsWith(to, ".md") && to in site.pages
  }

  ghost predicate LeadsTo(site: Site, page: string, to: string) {
    exists target :: target in LinksOf(site.text(page)) && Follows(site, page, target, to)
  }

  // A way from the index, page by page.
  ghost predicate IsWay(site: Site, way: seq<string>) {
    && way != [] && way[0] == INDEX
    && forall i | 0 < i < |way| :: LeadsTo(site, way[i - 1], way[i])
  }

  ghost predicate Reached(site: Site, page: string) {
    exists way :: IsWay(site, way) && way[|way| - 1] == page
  }

  lemma IndexReached(site: Site)
    ensures Reached(site, INDEX)
  {
    assert IsWay(site, [INDEX]);
  }

  lemma OneStepFurther(site: Site, page: string, to: string)
    requires Reached(site, page) && LeadsTo(site, page, to)
    ensures Reached(site, to)
  {
    var way :| IsWay(site, way) && way[|way| - 1] == page;
    var longer := way + [to];
    forall i | 0 < i < |longer| ensures LeadsTo(site, longer[i - 1], longer[i]) {
      assert i < |way| ==> LeadsTo(site, way[i - 1], way[i]);
    }
    assert IsWay(site, longer) && longer[|longer| - 1] == to;
  }

  // Wherever `from` leads is already in the set.
  ghost predicate Followed(site: Site, found: set<string>, page: string) {
    forall to :: LeadsTo(site, page, to) ==> to in found
  }

  // A set closed under following links from the index holds every way's end.
  lemma {:induction false} ClosedHoldsWays(site: Site, found: set<string>, way: seq<string>)
    requires INDEX in found && forall page | page in found :: Followed(site, found, page)
    requires IsWay(site, way)
    ensures way[|way| - 1] in found
  {
    if |way| > 1 {
      var front := way[..|way| - 1];
      assert IsWay(site, front) by {
        forall i | 0 < i < |front| ensures LeadsTo(site, front[i - 1], front[i]) {
          assert LeadsTo(site, way[i - 1], way[i]);
        }
      }
      ClosedHoldsWays(site, found, front);
      assert Followed(site, found, way[|way| - 2]) && LeadsTo(site, way[|way| - 2], way[|way| - 1]);
    }
  }

  // What the search keeps: everything found has a way, and everything found is
  // either waiting or followed through.
  ghost predicate Searching(site: Site, found: set<string>, queue: seq<string>) {
    && INDEX in found
    && (forall page | page in found :: Reached(site, page))
    && (forall page | page in queue :: page in found)
    && (forall page | page in found :: page in queue || Followed(site, found, page))
  }

  // One page is being followed: its links before k are done.
  ghost predicate Following(site: Site, found: set<string>, queue: seq<string>, page: string, links: seq<string>,
                            k: nat) {
    && k <= |links|
    && INDEX in found && page in found
    && (forall other | other in found :: Reached(site, other))
    && (forall other | other in queue :: other in found)
    && (forall other | other in found :: other in queue || other == page || Followed(site, found, other))
    && (forall i, to | 0 <= i < k && Follows(site, page, links[i], to) :: to in found)
  }

  lemma FollowsOne(site: Site, page: string, target: string, to: string)
    requires target in LinksOf(site.text(page)) && Follows(site, page, target, to)
    ensures LeadsTo(site, page, to)
  {
  }

  lemma StillFollowed(site: Site, found: set<string>, more: set<string>, page: string)
    requires found <= more && Followed(site, found, page)
    ensures Followed(site, more, page)
  {
  }

  lemma FollowNew(site: Site, found: set<string>, queue: seq<string>, page: string, links: seq<string>, k: nat,
                  to: string)
    requires Following(site, found, queue, page, links, k) && k < |links| && links == LinksOf(site.text(page))
    requires Follows(site, page, links[k], to)
    ensures Following(site, found + {to}, queue + [to], page, links, k + 1)
  {
    FollowsOne(site, page, links[k], to);
    OneStepFurther(site, page, to);
    forall other | other in found && Followed(site, found, other) ensures Followed(site, found + {to}, other) {
      StillFollowed(site, found, found + {to}, other);
    }
  }

  lemma FollowDone(site: Site, found: set<string>, queue: seq<string>, page: string, links: seq<string>)
    requires Following(site, found, queue, page, links, |links|) && links == LinksOf(site.text(page))
    ensures Searching(site, found, queue)
  {
    forall to | LeadsTo(site, page, to) ensures to in found {
      var target :| target in links && Follows(site, page, target, to);
      var i :| 0 <= i < |links| && links[i] == target;
    }
    assert Followed(site, found, page);
  }

  function Owned(site: Site): set<string> {
    (set page | page in site.pages) + {INDEX}
  }

  // One page's links are followed; what they newly find is queued.
  method FollowPage(site: Site, page: string, found: set<string>, queue: seq<string>)
    returns (more: set<string>, longer: seq<string>)
    requires Following(site, found, queue, page, LinksOf(site.text(page)), 0)
    ensures Searching(site, more, longer) && found <= more
    ensures found <= Owned(site) ==> more <= Owned(site)
    ensures more == found ==> longer == queue
  {
    more, longer := found, queue;
    var links := LinksIn(site.text(page));
    for k := 0 to |links|
      invariant Following(site, more, longer, page, links, k)
      invariant found <= more && (found <= Owned(site) ==> more <= Owned(site))
      invariant more == found ==> longer == queue
    {
      var resolved := Resolved(site, page, links[k]);
      if !IsExternal(links[k]) && EndsWith(resolved, ".md") && resolved in site.pages && resolved !in more {
        FollowNew(site, more, longer, page, links, k, resolved);
        more := more + {resolved};
        longer := longer + [resolved];
      }
    }
    FollowDone(site, more, longer, page, links);
  }

  // The search ends, with exactly the pages there is a way to.
  method Reach(site: Site) returns (found: set<string>)
    ensures forall page :: page in found <==> Reached(site, page)
    ensures found <= Owned(site)
  {
    found := {INDEX};
    var queue := [INDEX];
    IndexReached(site);
    while queue != []
      invariant Searching(site, found, queue)
      invariant found <= Owned(site)
      decreases |Owned(site) - found|, |queue|
    {
      var page := queue[0];
      assert queue == [page] + queue[1..];
      ghost var before := found;
      found, queue := FollowPage(site, page, found, queue[1..]);
      if found != before {
        Shrinks(Owned(site), before, found);
      }
    }
    ClosedHoldsAll(site, found);
  }

  lemma ClosedHoldsAll(site: Site, found: set<string>)
    requires Searching(site, found, [])
    ensures forall page :: Reached(site, page) <==> page in found
  {
    forall page | Reached(site, page) ensures page in found {
      var way :| IsWay(site, way) && way[|way| - 1] == page;
      ClosedHoldsWays(site, found, way);
    }
  }

  lemma Shrinks(all: set<string>, before: set<string>, after: set<string>)
    requires before < after <= all
    ensures |all - after| < |all - before|
  {
    var page :| page in after && page !in before;
    assert all - after < all - before;
    Smaller(all - after, all - before);
  }

  lemma {:induction false} Smaller(a: set<string>, b: set<string>)
    requires a < b
    ensures |a| < |b|
  {
    var x :| x in b && x !in a;
    if a == {} {
    } else {
      var y :| y in a;
      Smaller(a - {y}, b - {y});
    }
  }

  // ---- the report ----

  predicate IsExempt(site: Site, page: string) { exists tree | tree in site.exempt :: tree <= page }

  // The pages reported are exactly the owned ones, not exempt, that no chain of
  // links from the index leads to.
  method Unreachable(site: Site) returns (problems: seq<string>)
    ensures forall page :: page in problems <==> page in site.pages && !IsExempt(site, page) && !Reached(site, page)
  {
    var found := Reach(site);
    problems := [];
    for k := 0 to |site.pages|
      invariant forall page :: page in problems <==> page in site.pages[..k] && page !in found && !IsExempt(site, page)
    {
      var page := site.pages[k];
      if page !in found && !IsExempt(site, page) {
        problems := problems + [page];
      }
    }
  }
}
