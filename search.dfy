/** The search stage: the search API's decoded reply is filtered into
    `{title, link, snippet}` records, and the records decide whether the
    pipeline goes on to page extraction. The HTTP exchange itself is an
    input: a status code with the decoded `items`, or a raised exception. */
module Search {
  import opened Strings
  import Config

  /** A scalar JSON value, as the decoded items carry them. */
  datatype Json = JNull | JBool(b: bool) | JNumber(n: int) | JString(s: string)

  /** One decoded search item: a JSON object. */
  type Item = map<string, Json>

  /** The search call's outcome: a reply with its status and, when the body
      has an `items` key, the items; or an exception raised by the request or
      the decoding. */
  datatype Response = Reply(status: int, items: Option<seq<Item>>) | Raised(reason: string)

  datatype SearchResult = SearchResult(title: Json, link: string, snippet: Json)

  /** Whether the pipeline goes on: the "no results" text, or the URLs to extract. */
  datatype Plan = NoResults(message: string) | ExtractUrls(urls: seq<string>)

  const NoResultsMessage: string := "No search results found."

  /** A link is dropped when its lower-cased form contains `.pdf`, `.doc` or
      `.docx` anywhere, not only at its end. */
  predicate Blocked(link: string)
  {
    var l := Lower(link);
    Contains(l, ".pdf") || Contains(l, ".doc") || Contains(l, ".docx")
  }

  /** The item has a `link` but it is not a string: `.lower()` on it raises. */
  predicate Raises(item: Item)
  {
    "link" in item && !item["link"].JString?
  }

  /** The item passes the filter. */
  predicate Admits(item: Item)
  {
    "link" in item && item["link"].JString? && !Blocked(item["link"].s)
  }

  /** `item.get(key, "")`. */
  function GetOrEmpty(item: Item, key: string): Json
  {
    if key in item then item[key] else JString("")
  }

  /** The record built from an admitted item. */
  function Record(item: Item): SearchResult
    requires "link" in item && item["link"].JString?
  {
    SearchResult(GetOrEmpty(item, "title"), item["link"].s, GetOrEmpty(item, "snippet"))
  }

  predicate AnyRaises(items: seq<Item>)
  {
    exists j :: 0 <= j < |items| && Raises(items[j])
  }

  /** The records of the admitted items, in item order: what the loop has
      appended after visiting `items`. */
  function Kept(items: seq<Item>): seq<SearchResult>
  {
    if items == [] then []
    else
      var last := items[|items| - 1];
      Kept(items[..|items| - 1]) + (if Admits(last) then [Record(last)] else [])
  }

  /** Positions of the admitted items, in increasing order. */
  function AdmittedIndices(items: seq<Item>): (ix: seq<nat>)
    ensures forall k :: 0 <= k < |ix| ==> ix[k] < |items| && Admits(items[ix[k]])
    ensures forall k, l :: 0 <= k < l < |ix| ==> ix[k] < ix[l]
    ensures forall j :: 0 <= j < |items| && Admits(items[j]) ==> j in ix
  {
    if items == [] then []
    else
      var n := |items| - 1;
      var front := items[..n];
      assert forall j :: 0 <= j < n ==> items[j] == front[j];
      AdmittedIndices(front) + (if Admits(items[n]) then [n] else [])
  }

  /** Visiting one more item appends its record and its position exactly
      when it is admitted. */
  lemma KeptSnoc(items: seq<Item>)
    requires items != []
    ensures var n := |items| - 1;
      && Kept(items) == Kept(items[..n]) + (if Admits(items[n]) then [Record(items[n])] else [])
      && AdmittedIndices(items) == AdmittedIndices(items[..n]) + (if Admits(items[n]) then [n] else [])
  {
  }

  /** The kept records are exactly the records of the admitted items, taken
      in input order: the output is a subsequence of the input. */
  lemma {:induction false} KeptAreAdmitted(items: seq<Item>)
    ensures var ix := AdmittedIndices(items);
      && |Kept(items)| == |ix|
      && forall k :: 0 <= k < |ix| ==> Kept(items)[k] == Record(items[ix[k]])
  {
    if items != [] {
      var n := |items| - 1;
      var front := items[..n];
      KeptAreAdmitted(front);
      KeptSnoc(items);
      var ixF, kf := AdmittedIndices(front), Kept(front);
      var ix, kept := AdmittedIndices(items), Kept(items);
      forall k | 0 <= k < |ix|
        ensures kept[k] == Record(items[ix[k]])
      {
        if k < |ixF| {
          assert kept[k] == kf[k];
          assert ix[k] == ixF[k];
          assert items[ixF[k]] == front[ixF[k]];
        }
      }
    }
  }

  /** The body of `fetch_search_results` after the request: a non-200 status
      or any exception gives `[]`; otherwise the admitted items' records, cut
      to the first `maxResults`. */
  function SearchResults(response: Response, maxResults: nat): (r: seq<SearchResult>)
    ensures |r| <= maxResults
    ensures forall k :: 0 <= k < |r| ==> !Blocked(r[k].link)
    ensures response.Raised? || response.status != 200 ==> r == []
  {
    match response
    case Raised(_) => []
    case Reply(status, body) =>
      if status != 200 then []
      else
        var items := if body.Some? then body.value else [];
        if AnyRaises(items) then []
        else
          var kept := Kept(items);
          KeptAreAdmitted(items);
          kept[..if |kept| <= maxResults then |kept| else maxResults]
  }

  /** The items of a 200 reply; a body without `items` counts as no items. */
  function ItemsOf(response: Response): seq<Item>
  {
    if response.Reply? && response.items.Some? then response.items.value else []
  }

  /** On a 200 reply none of whose links raises, the results are the records
      of the first `min(maxResults, n)` admitted items, in input order: items
      without a link or with a blocked link never appear, `title` and
      `snippet` default to `""`, and `link` is copied unchanged. */
  lemma SearchResultsOfReply(response: Response, maxResults: nat)
    requires response.Reply? && response.status == 200 && !AnyRaises(ItemsOf(response))
    ensures var items, ix, r := ItemsOf(response), AdmittedIndices(ItemsOf(response)), SearchResults(response, maxResults);
      && |r| == (if |ix| <= maxResults then |ix| else maxResults)
      && forall k :: 0 <= k < |r| ==>
           && r[k].link == items[ix[k]]["link"].s
           && r[k].title == (if "title" in items[ix[k]] then items[ix[k]]["title"] else JString(""))
           && r[k].snippet == (if "snippet" in items[ix[k]] then items[ix[k]]["snippet"] else JString(""))
  {
    KeptAreAdmitted(ItemsOf(response));
  }

  /** A single link that is present but not a string makes the whole search
      come back empty. */
  lemma SearchResultsWhenRaising(response: Response, maxResults: nat)
    requires AnyRaises(ItemsOf(response))
    ensures SearchResults(response, maxResults) == []
  {
  }

  /** `fetch_search_results` after the HTTP call: the item loop appending
      records, then the cut to the configured maximum. */
  method FetchSearchResults(response: Response) returns (results: seq<SearchResult>)
    ensures results == SearchResults(response, Config.MaxResults)
  {
    if response.Raised? || response.status != 200 {
      return [];
    }
    var items := if response.items.Some? then response.items.value else [];
    var acc: seq<SearchResult> := [];
    for i := 0 to |items|
      invariant acc == Kept(items[..i])
      invariant !AnyRaises(items[..i])
    {
      var item := items[i];
      assert items[..i + 1][..i] == items[..i];
      if "link" in item {
        match item["link"]
        case JString(link) =>
          if !Blocked(link) {
            acc := acc + [Record(item)];
          }
        case _ =>
          assert Raises(items[i]);
          return [];
      }
    }
    assert items[..|items|] == items;
    KeptAreAdmitted(items);
    results := acc[..if |acc| <= Config.MaxResults then |acc| else Config.MaxResults];
  }

  /** The rule in `search` after the results arrive: no results give the
      literal "No search results found.", otherwise the links in result
      order. */
  function PlanExtraction(results: seq<SearchResult>): (p: Plan)
    ensures p.NoResults? <==> results == []
    ensures p.NoResults? ==> p.message == NoResultsMessage
    ensures p.ExtractUrls? ==> |p.urls| == |results| && forall k :: 0 <= k < |results| ==> p.urls[k] == results[k].link
  {
    if results == [] then NoResults(NoResultsMessage)
    else ExtractUrls(seq(|results|, k requires 0 <= k < |results| => results[k].link))
  }

  /** The URLs handed to extraction are at most ten, none is blocked, and
      each is the link of a distinct admitted item, in input order. */
  lemma PlannedUrls(response: Response)
    requires PlanExtraction(SearchResults(response, Config.MaxResults)).ExtractUrls?
    ensures var urls, items, ix := PlanExtraction(SearchResults(response, Config.MaxResults)).urls,
                                   ItemsOf(response), AdmittedIndices(ItemsOf(response));
      && 1 <= |urls| <= Config.MaxResults
      && |urls| <= |ix|
      && forall k :: 0 <= k < |urls| ==> !Blocked(urls[k]) && urls[k] == items[ix[k]]["link"].s
  {
    SearchResultsOfReply(response, Config.MaxResults);
  }

  /** `.docx` is redundant in the filter: every link containing `.docx`
      contains `.doc`. */
  lemma DocxCoveredByDoc(link: string)
    ensures Blocked(link) <==> Contains(Lower(link), ".pdf") || Contains(Lower(link), ".doc")
  {
    var l := Lower(link);
    if Contains(l, ".docx") {
      var i :| 0 <= i <= |l| && OccursAt(l, ".docx", i);
      assert l[i..i + 4] == l[i..i + 5][..4];
      assert OccursAt(l, ".doc", i);
    }
  }

  /** The test is a substring test on the lower-cased link: `.pdf` or
      `.doc`, in any letter case, anywhere in a link blocks it. */
  lemma BlockedAnywhere(before: string, needle: string, after: string)
    requires Lower(needle) == ".pdf" || Lower(needle) == ".doc"
    ensures Blocked(before + needle + after)
  {
    LowerAppend(before + needle, after);
    LowerAppend(before, needle);
    ContainsMiddle(Lower(before), Lower(needle), Lower(after));
  }

  /** A host name such as `www.Docker.com` is dropped as if it were a
      document. */
  lemma DockerHostBlocked()
    ensures Blocked("https://www.Docker.com/")
  {
    assert Lower(".Doc") == ".doc";
    assert "https://www" + ".Doc" + "ker.com/" == "https://www.Docker.com/";
    BlockedAnywhere("https://www", ".Doc", "ker.com/");
  }
}
