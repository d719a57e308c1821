/** Page extraction for one URL: the rendered document is parsed into an
    element tree, boilerplate subtrees are dropped, the main-content element
    is chosen by a fixed priority chain, and its text is reduced and trimmed.
    The browser and the HTML-to-text converter are opaque: the browser's work
    is an input (`Render`, and whether closing the browser succeeds), the
    converter and the tag serialiser are function parameters that either
    return their text or raise (`None`). */
module Extract {
  import opened Strings

  /** A parsed HTML node: an element with its tag name, its class list and
      its children, or a piece of text. */
  datatype Node =
    | Element(name: string, classes: seq<string>, children: seq<Node>)
    | Text(text: string)

  /** What the browser phase produced for a URL: the parsed top-level nodes of
      the document, or the exception any step up to the parse raised. */
  datatype Render = Rendered(document: seq<Node>) | Failed(reason: string)

  /** The record returned on success. `title` is `None` when the document's
      title element has no single string inside it. */
  datatype Page = Page(url: string, title: Option<string>, content: string)

  const Boilerplate: set<string> := {"script", "style", "nav", "footer", "header", "aside"}
  const NoTitle: string := "No title"

  // Retry schedule declared on extract_content: stop after 3 attempts, and
  // exponential waits with multiplier 1 clamped to [4, 10].
  const MaxAttempts: nat := 3
  const WaitMultiplier: nat := 1
  const WaitMin: nat := 4
  const WaitMax: nat := 10

  // ---------------------------------------------------------------------
  // Document order

  /** All nodes of a forest in document order (each node before its
      descendants, siblings left to right): what the parser's descendant walk
      visits. */
  function Flatten(forest: seq<Node>): seq<Node>
    decreases forest
  {
    if forest == [] then [] else FlattenTree(forest[0]) + Flatten(forest[1..])
  }

  function FlattenTree(n: Node): seq<Node>
    decreases n
  {
    match n
    case Text(_) => [n]
    case Element(_, _, kids) => [n] + Flatten(kids)
  }

  // ---------------------------------------------------------------------
  // Boilerplate removal

  predicate IsBoilerplate(n: Node)
  {
    n.Element? && n.name in Boilerplate
  }

  /** No element anywhere in the forest is one of the boilerplate tags. */
  predicate BoilerplateFree(forest: seq<Node>)
  {
    forall i :: 0 <= i < |Flatten(forest)| ==> !IsBoilerplate(Flatten(forest)[i])
  }

  /** The document after every boilerplate element has been decomposed
      together with its subtree; everything else keeps its place. */
  function Clean(forest: seq<Node>): (r: seq<Node>)
    ensures BoilerplateFree(r)
    decreases forest
  {
    if forest == [] then []
    else
      var rest := Clean(forest[1..]);
      match forest[0]
      case Text(_) =>
        FlattenCons(forest[0], rest);
        [forest[0]] + rest
      case Element(name, classes, kids) =>
        if name in Boilerplate then rest
        else
          var e := Element(name, classes, Clean(kids));
          FlattenCons(e, rest);
          [e] + rest
  }

  lemma FlattenCons(n: Node, rest: seq<Node>)
    ensures Flatten([n] + rest) == FlattenTree(n) + Flatten(rest)
  {
    assert ([n] + rest)[1..] == rest;
  }

  /** A document without boilerplate is left untouched. */
  lemma {:induction false} CleanKeepsFree(forest: seq<Node>)
    requires BoilerplateFree(forest)
    ensures Clean(forest) == forest
    decreases forest
  {
    if forest != [] {
      var n, rest := forest[0], forest[1..];
      assert forest == [n] + rest;
      FlattenCons(n, rest);
      var fl := Flatten(forest);
      assert Flatten(rest) == fl[|FlattenTree(n)|..];
      assert BoilerplateFree(rest) by {
        forall i | 0 <= i < |Flatten(rest)| ensures !IsBoilerplate(Flatten(rest)[i]) {
          assert Flatten(rest)[i] == fl[|FlattenTree(n)| + i];
        }
      }
      CleanKeepsFree(rest);
      match n
      case Text(_) =>
      case Element(name, classes, kids) =>
        assert fl[0] == n;
        assert Flatten(kids) == fl[1..1 + |Flatten(kids)|];
        assert BoilerplateFree(kids) by {
          forall i | 0 <= i < |Flatten(kids)| ensures !IsBoilerplate(Flatten(kids)[i]) {
            assert Flatten(kids)[i] == fl[1 + i];
          }
        }
        CleanKeepsFree(kids);
    }
  }

  /** The markup of a forest as a bracket sequence: an element opens with its
      tag and classes, holds its children, and closes; text is one token. */
  datatype Token = Open(name: string, classes: seq<string>) | Word(text: string) | Close

  function Shape(forest: seq<Node>): seq<Token>
    decreases forest
  {
    if forest == [] then [] else ShapeTree(forest[0]) + Shape(forest[1..])
  }

  function ShapeTree(n: Node): seq<Token>
    decreases n
  {
    match n
    case Text(t) => [Word(t)]
    case Element(name, classes, kids) => [Open(name, classes)] + Shape(kids) + [Close]
  }

  /** The shape of what lies outside every boilerplate subtree: the shape
      with each boilerplate element skipped together with its contents. */
  function VisibleShape(forest: seq<Node>): seq<Token>
    decreases forest
  {
    if forest == [] then [] else VisibleTree(forest[0]) + VisibleShape(forest[1..])
  }

  function VisibleTree(n: Node): seq<Token>
    decreases n
  {
    match n
    case Text(t) => [Word(t)]
    case Element(name, classes, kids) =>
      if name in Boilerplate then [] else [Open(name, classes)] + VisibleShape(kids) + [Close]
  }

  lemma ShapeCons(n: Node, rest: seq<Node>)
    ensures Shape([n] + rest) == ShapeTree(n) + Shape(rest)
  {
    assert ([n] + rest)[1..] == rest;
  }

  /** Cleaning removes nothing but boilerplate: the cleaned document has
      exactly the shape of the original with the boilerplate subtrees cut
      out, so every other node keeps its parent, its children and its
      place among its siblings. */
  lemma {:induction false} CleanKeepsVisible(forest: seq<Node>)
    ensures Shape(Clean(forest)) == VisibleShape(forest)
    decreases forest
  {
    if forest != [] {
      var n, rest := forest[0], forest[1..];
      CleanKeepsVisible(rest);
      var cr := Clean(rest);
      match n
      case Text(_) =>
        ShapeCons(n, cr);
      case Element(name, classes, kids) =>
        if name !in Boilerplate {
          CleanKeepsVisible(kids);
          ShapeCons(Element(name, classes, Clean(kids)), cr);
        }
    }
  }

  /** Reads a forest back from its bracket sequence, up to the first
      unmatched `Close` or the end; returns the forest and what is left. */
  function Decode(ts: seq<Token>): (r: (seq<Node>, seq<Token>))
    ensures |r.1| <= |ts|
    decreases |ts|
  {
    if ts == [] then ([], [])
    else
      match ts[0]
      case Close => ([], ts)
      case Word(t) =>
        var (f, rest) := Decode(ts[1..]);
        ([Text(t)] + f, rest)
      case Open(name, classes) =>
        var (kids, after) := Decode(ts[1..]);
        if after == [] then ([Element(name, classes, kids)], [])
        else
          var (f, rest) := Decode(after[1..]);
          ([Element(name, classes, kids)] + f, rest)
  }

  lemma DecodeWord(t: string, ts: seq<Token>)
    ensures Decode([Word(t)] + ts) == ([Text(t)] + Decode(ts).0, Decode(ts).1)
  {
    assert ([Word(t)] + ts)[1..] == ts;
  }

  lemma DecodeOpen(name: string, classes: seq<string>, ts: seq<Token>, kids: seq<Node>, more: seq<Token>)
    requires Decode(ts) == (kids, [Close] + more)
    ensures Decode([Open(name, classes)] + ts) == ([Element(name, classes, kids)] + Decode(more).0, Decode(more).1)
  {
    assert ([Open(name, classes)] + ts)[1..] == ts;
    assert ([Close] + more)[1..] == more;
  }

  lemma ElementBrackets(name: string, classes: seq<string>, kids: seq<Node>, more: seq<Token>)
    ensures ShapeTree(Element(name, classes, kids)) + more == [Open(name, classes)] + (Shape(kids) + ([Close] + more))
  {
  }

  /** One element's brackets followed by more input: the element is read
      whole, then the rest. */
  lemma DecodeElement(name: string, classes: seq<string>, kids: seq<Node>, more: seq<Token>)
    requires Decode(Shape(kids) + ([Close] + more)) == (kids, [Close] + more)
    ensures Decode(ShapeTree(Element(name, classes, kids)) + more)
         == ([Element(name, classes, kids)] + Decode(more).0, Decode(more).1)
  {
    ElementBrackets(name, classes, kids, more);
    DecodeOpen(name, classes, Shape(kids) + ([Close] + more), kids, more);
  }

  /** A forest's bracket sequence reads back as that forest. */
  lemma {:induction false} DecodeShape(forest: seq<Node>, tail: seq<Token>)
    requires tail == [] || tail[0] == Close
    ensures Decode(Shape(forest) + tail) == (forest, tail)
    decreases forest
  {
    if forest == [] {
      assert Shape(forest) + tail == tail;
    } else {
      var n, rest := forest[0], forest[1..];
      var more := Shape(rest) + tail;
      assert Shape(forest) + tail == ShapeTree(n) + more by {
        assert forest == [n] + rest;
        ShapeCons(n, rest);
      }
      assert Decode(more) == (rest, tail) by {
        DecodeShape(rest, tail);
      }
      assert Decode(ShapeTree(n) + more) == ([n] + rest, tail) by {
        match n
        case Text(t) =>
          DecodeWord(t, more);
        case Element(name, classes, kids) =>
          DecodeShape(kids, [Close] + more);
          DecodeElement(name, classes, kids, more);
      }
      assert forest == [n] + rest;
    }
  }

  /** Different forests have different shapes. */
  lemma ShapeInjective(f: seq<Node>, g: seq<Node>)
    requires Shape(f) == Shape(g)
    ensures f == g
  {
    DecodeShape(f, []);
    DecodeShape(g, []);
    assert Shape(f) + [] == Shape(f) && Shape(g) + [] == Shape(g);
  }

  /** The cleaned document is the one forest whose shape is the visible
      shape of the original. */
  lemma CleanIsVisibleForest(forest: seq<Node>, g: seq<Node>)
    ensures Shape(g) == VisibleShape(forest) <==> g == Clean(forest)
  {
    CleanKeepsVisible(forest);
    if Shape(g) == VisibleShape(forest) {
      ShapeInjective(g, Clean(forest));
    }
  }

  /** Cleaning a cleaned document changes nothing. */
  lemma CleanIdempotent(forest: seq<Node>)
    ensures Clean(Clean(forest)) == Clean(forest)
  {
    CleanKeepsFree(Clean(forest));
  }

  // ---------------------------------------------------------------------
  // Searching the tree

  /** A search criterion: an element with a given tag name, or a `div` having
      one of the given classes. */
  datatype Query = Named(tag: string) | DivClassed(wanted: set<string>)

  predicate Matches(q: Query, n: Node)
  {
    n.Element? &&
    match q
    case Named(tag) => n.name == tag
    case DivClassed(wanted) => n.name == "div" && exists c :: c in n.classes && c in wanted
  }

  /** Position of the first node of `nodes` that matches `q`, or `|nodes|`. */
  function FirstIndex(nodes: seq<Node>, q: Query): (k: nat)
    ensures k <= |nodes|
    ensures forall j :: 0 <= j < k ==> !Matches(q, nodes[j])
    ensures k < |nodes| ==> Matches(q, nodes[k])
  {
    if nodes == [] then 0 else if Matches(q, nodes[0]) then 0 else 1 + FirstIndex(nodes[1..], q)
  }

  /** A document has some node matching `q`. */
  predicate Has(forest: seq<Node>, q: Query)
  {
    exists j :: 0 <= j < |Flatten(forest)| && Matches(q, Flatten(forest)[j])
  }

  /** `n` is the first node of the document, in document order, matching `q`. */
  predicate IsFirst(forest: seq<Node>, q: Query, n: Node)
  {
    exists k :: 0 <= k < |Flatten(forest)| && n == Flatten(forest)[k]
      && Matches(q, n)
      && forall j :: 0 <= j < k ==> !Matches(q, Flatten(forest)[j])
  }

  /** The parser's `find`: the first matching node in document order, or
      `None`. */
  function Find(forest: seq<Node>, q: Query): (r: Option<Node>)
    ensures r.None? <==> !Has(forest, q)
    ensures r.Some? ==> IsFirst(forest, q, r.value)
  {
    var nodes := Flatten(forest);
    var k := FirstIndex(nodes, q);
    if k < |nodes| then
      assert Matches(q, nodes[k]);
      Some(nodes[k])
    else None
  }

  const MainQuery: Query := Named("main")
  const ArticleQuery: Query := Named("article")
  const ContentDivQuery: Query := DivClassed({"content", "main"})
  const BodyQuery: Query := Named("body")

  /** The main-content choice, as a priority chain: the first `main`, else
      the first `article`, else the first `div` of class `content` or `main`,
      else the first `body`. Each criterion is used only when all earlier ones
      match nothing, and the chosen node is the first match, in document
      order, of the criterion in use. */
  function SelectMain(forest: seq<Node>): (r: Option<Node>)
    ensures Has(forest, MainQuery) ==> r.Some? && IsFirst(forest, MainQuery, r.value)
    ensures !Has(forest, MainQuery) && Has(forest, ArticleQuery) ==>
      r.Some? && IsFirst(forest, ArticleQuery, r.value)
    ensures !Has(forest, MainQuery) && !Has(forest, ArticleQuery) && Has(forest, ContentDivQuery) ==>
      r.Some? && IsFirst(forest, ContentDivQuery, r.value)
    ensures !Has(forest, MainQuery) && !Has(forest, ArticleQuery) && !Has(forest, ContentDivQuery) ==>
      if Has(forest, BodyQuery) then r.Some? && IsFirst(forest, BodyQuery, r.value) else r.None?
  {
    var m := Find(forest, MainQuery);
    if m.Some? then m
    else
      var a := Find(forest, ArticleQuery);
      if a.Some? then a
      else
        var d := Find(forest, ContentDivQuery);
        if d.Some? then d else Find(forest, BodyQuery)
  }

  // ---------------------------------------------------------------------
  // Title

  /** A tag's `.string`: the text of its only child, looking through single
      nested tags; `None` when a node on the way has zero or several
      children. */
  function StringOf(n: Node): Option<string>
  {
    match n
    case Text(t) => Some(t)
    case Element(_, _, kids) => if |kids| == 1 then StringOf(kids[0]) else None
  }

  /** The record's title: the `.string` of the document's first `title`
      element, or the literal "No title" when there is none. */
  function TitleOf(forest: seq<Node>): (r: Option<string>)
    ensures !Has(forest, Named("title")) ==> r == Some(NoTitle)
    ensures Has(forest, Named("title")) ==>
      exists t :: IsFirst(forest, Named("title"), t) && r == StringOf(t)
  {
    match Find(forest, Named("title"))
    case None => Some(NoTitle)
    case Some(t) => StringOf(t)
  }

  // ---------------------------------------------------------------------
  // The operation

  /** `str(main_content)`: the markup of the chosen node, or the text "None"
      when nothing was chosen. `None` when serialising the node raised. */
  function Markup(selected: Option<Node>, serialize: Node -> Option<string>): Option<string>
  {
    match selected
    case None => Some("None")
    case Some(n) => serialize(n)
  }

  /** `self.html_converter.handle(str(main_content))` for a cleaned document:
      the converter's text, or `None` when serialising or converting raised. */
  function Converted(cleaned: seq<Node>, serialize: Node -> Option<string>, toText: string -> Option<string>)
    : Option<string>
  {
    match Markup(SelectMain(cleaned), serialize)
    case None => None
    case Some(m) => toText(m)
  }

  /** `extract_content`: `None` exactly when some step inside the `try`
      raised: the browser phase up to the parse, serialising the chosen node,
      the converter, or closing the browser. Otherwise the input URL
      unchanged, the title (or "No title"), and the converted text of the
      chosen node with surrounding whitespace stripped. Every exception
      becomes `None`, so no failure escapes. */
  function ExtractContent(url: string, render: Render, serialize: Node -> Option<string>,
                          toText: string -> Option<string>, closes: bool)
    : (r: Option<Page>)
    ensures r.None? <==>
      || render.Failed?
      || Converted(Clean(render.document), serialize, toText).None?
      || !closes
    ensures r.Some? ==>
      var cleaned := Clean(render.document);
      && r.value.url == url
      && r.value.content == Strip(Converted(cleaned, serialize, toText).value)
      && r.value.title == TitleOf(cleaned)
      && BoilerplateFree(cleaned)
  {
    match render
    case Failed(_) => None
    case Rendered(document) =>
      var cleaned := Clean(document);
      match Converted(cleaned, serialize, toText)
      case None => None
      case Some(text) =>
        if closes then Some(Page(url, TitleOf(cleaned), Strip(text))) else None
  }

  /** A returned record's content is the converter's text cut down to the
      part between its first and last non-whitespace characters: it starts
      and ends with non-whitespace, and only whitespace was dropped around
      it. */
  lemma ExtractedContentTrimmed(url: string, render: Render, serialize: Node -> Option<string>,
                                toText: string -> Option<string>, closes: bool)
    requires ExtractContent(url, render, serialize, toText, closes).Some?
    ensures var content := ExtractContent(url, render, serialize, toText, closes).value.content;
      content == [] || (!IsSpace(content[0]) && !IsSpace(content[|content| - 1]))
    ensures TrimmedFrom(ExtractContent(url, render, serialize, toText, closes).value.content,
                        Converted(Clean(render.document), serialize, toText).value)
  {
    var out := Converted(Clean(render.document), serialize, toText).value;
    assert ExtractContent(url, render, serialize, toText, closes).value.content == Strip(out);
    StripSlice(out);
  }

  /** `2 ** e`. */
  function Pow2(e: nat): (r: nat)
    ensures r >= 1
  {
    if e == 0 then 1 else 2 * Pow2(e - 1)
  }

  /** The wait before the next attempt after `attempt` attempts, as the
      declared exponential schedule computes it: `multiplier * 2 ** (attempt - 1)`
      clamped to [4, 10]. */
  function Backoff(attempt: nat): (w: nat)
    requires attempt >= 1
    ensures WaitMin <= w <= WaitMax
    ensures WaitMultiplier * Pow2(attempt - 1) <= WaitMin ==> w == WaitMin
    ensures WaitMultiplier * Pow2(attempt - 1) >= WaitMax ==> w == WaitMax
    ensures WaitMin <= WaitMultiplier * Pow2(attempt - 1) <= WaitMax ==> w == WaitMultiplier * Pow2(attempt - 1)
  {
    var raw := WaitMultiplier * Pow2(attempt - 1);
    if raw < WaitMin then WaitMin else if raw > WaitMax then WaitMax else raw
  }

  /** Within the declared three attempts, every wait is the floor of 4: the
      two waits are after attempts 1 and 2, where `2 ** (attempt - 1)` is at
      most 2. */
  lemma BackoffWithinAttempts(attempt: nat)
    requires 1 <= attempt < MaxAttempts
    ensures Backoff(attempt) == WaitMin
  {
    assert Pow2(0) == 1;
    assert Pow2(1) == 2;
  }
}
