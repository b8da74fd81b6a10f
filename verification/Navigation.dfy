// The navigation item a path belongs to (apps/web/lib/app-shell.tsx,
// activeItemId).
module Navigation {
  import opened Text

  datatype Item = Item(id: string, href: string)

  predicate Matches(path: string, href: string) {
    if href == "/" then path == "/" else path == href || href + "/" <= path
  }

  // Matching is being a prefix segment by segment, but for the root, which
  // only matches itself.
  lemma MatchesBySegment(path: string, href: string)
    ensures Matches(path, href) <==> Split(href, '/') <= Split(path, '/') && (href == "/" ==> path == "/")
  {
    WholePrefix(href, '/', path);
  }

  // The item the loop settles on: the first of those with the longest
  // matching href.
  ghost predicate Wins(path: string, items: seq<Item>, k: nat) {
    && k < |items| && Matches(path, items[k].href)
    && (forall j | 0 <= j < |items| && Matches(path, items[j].href) :: |items[j].href| <= |items[k].href|)
    && (forall j | 0 <= j < k && Matches(path, items[j].href) :: |items[j].href| < |items[k].href|)
  }

  method ActiveItemId(path: string, items: seq<Item>) returns (id: Option<string>, ghost winner: nat)
    ensures id == None <==> forall item | item in items :: !Matches(path, item.href)
    ensures id.Some? ==> Wins(path, items, winner) && id.value == items[winner].id
  {
    var best: Option<Item> := None;
    winner := 0;
    for k := 0 to |items|
      invariant best == None <==> forall j | 0 <= j < k :: !Matches(path, items[j].href)
      invariant best.Some? ==> winner < k && Wins(path, items[..k], winner) && best.value == items[winner]
    {
      var item := items[k];
      if Matches(path, item.href) && (best == None || |item.href| > |best.value.href|) {
        best, winner := Some(item), k;
      }
    }
    assert items[..|items|] == items;
    id := match best case None => None case Some(item) => Some(item.id);
  }

  lemma SameLengthSameHref(path: string, a: string, b: string)
    requires Matches(path, a) && Matches(path, b) && |a| == |b|
    ensures a == b
  {
    assert a == path[..|a|] && b == path[..|b|];
  }

  function Hrefs(items: seq<Item>): set<string> { set item | item in items :: item.href }

  lemma WinnerIsLongest(path: string, items: seq<Item>, k: nat, href: string)
    requires Wins(path, items, k) && href in Hrefs(items) && Matches(path, href)
    ensures |href| <= |items[k].href|
  {
  }

  // Lists with the same hrefs have the same winning href, whatever their order.
  lemma WinnerIgnoresOrder(path: string, items: seq<Item>, others: seq<Item>, k: nat, j: nat)
    requires Wins(path, items, k) && Wins(path, others, j) && Hrefs(items) == Hrefs(others)
    ensures items[k].href == others[j].href
  {
    var href, other := items[k].href, others[j].href;
    assert href in Hrefs(items) && other in Hrefs(others);
    WinnerIsLongest(path, items, k, other);
    WinnerIsLongest(path, others, j, href);
    SameLengthSameHref(path, href, other);
  }
}
