/** The hand-off to the summariser: the extracted pages are rendered into one
    "Source Materials" text, each source numbered from 1 and cut to its first
    2000 characters, and that text is embedded in a fixed prompt around the
    query. The generative-model call that consumes the prompt is not part of
    this model. */
module Summarize {
  import opened Strings
  import opened Extract

  const Header: string := "# Source Materials:\n\n"
  const ContentLimit: nat := 2000
  /** Text that sits inside the block template and so is emitted verbatim after
      every source's content. */
  const LimitNote: string := "  # Limit content length per source"
  const BlockEnd: string := LimitNote + "\n\n---\n"

  const PromptOpen: string := "\nAnalyze and summarize the following content about: \""
  /** The closing quote after the query, then the fixed instructions. */
  const PromptInstructions: string := "\"" + Instructions
  const Instructions: string :=
    "\n\nCreate a detailed summary with these sections:\n"
    + "1. Key Findings (2-3 paragraphs)\n"
    + "2. Important Details (bullet points)\n"
    + "3. Sources (numbered list)\n\n"
    + "Focus on accuracy, clarity, and completeness.\n"
    + "Present conflicting information if found.\n"
    + "Use proper markdown formatting.\n\n"
  const ContentLabel: string := "Content to analyze:\n"

  /** `content[:2000]`: the longest prefix of at most 2000 characters. */
  function Truncate(content: string): (r: string)
    ensures IsPrefix(r, content)
    ensures |r| == if |content| <= ContentLimit then |content| else ContentLimit
  {
    content[..if |content| <= ContentLimit then |content| else ContentLimit]
  }

  /** How an f-string shows the title: the text, or "None". */
  function ShowTitle(title: Option<string>): string
  {
    match title
    case Some(t) => t
    case None => "None"
  }

  /** The first line of source number `i`'s block, after its leading newline. */
  function SourceHeading(i: nat, page: Page): string
  {
    "\n### Source " + NatToString(i) + ": " + ShowTitle(page.title)
  }

  /** The text block for source number `i`. */
  function Block(i: nat, page: Page): string
  {
    SourceHeading(i, page) + "\nURL: " + page.url + "\n\n" + Truncate(page.content) + BlockEnd
  }

  /** The formatted sources: the header, then one block per page, numbered
      1..n in page order. */
  function Formatted(pages: seq<Page>): string
  {
    if pages == [] then Header
    else Formatted(pages[..|pages| - 1]) + Block(|pages|, pages[|pages| - 1])
  }

  /** Every block opens with its source's number and title, names its URL,
      and ends with the cut content, the verbatim note and the separator. */
  lemma BlockContents(i: nat, page: Page)
    ensures IsPrefix(SourceHeading(i, page), Block(i, page))
    ensures Contains(Block(i, page), "\nURL: " + page.url)
    ensures IsSuffix(Truncate(page.content) + BlockEnd, Block(i, page))
  {
    var s, url, body := SourceHeading(i, page), page.url, Truncate(page.content);
    var w := s + "\nURL: " + url;
    var z := w + "\n\n";
    PrefixOfConcat(s, "\nURL: ");
    PrefixOfConcat(s + "\nURL: ", url);
    PrefixOfConcat(w, "\n\n");
    PrefixOfConcat(z, body);
    PrefixOfConcat(z + body, BlockEnd);
    PrefixTransitive(s, s + "\nURL: ", w);
    PrefixTransitive(s, w, z);
    PrefixTransitive(s, z, z + body);
    PrefixTransitive(s, z + body, Block(i, page));
    ConcatAssoc(z, body, BlockEnd);
    SuffixOfConcat(z, body + BlockEnd);
    ConcatAssoc(s, "\nURL: ", url);
    SuffixOfConcat(s, "\nURL: " + url);
    SuffixContained(s, "\nURL: " + url);
    PrefixTransitive(w, z, z + body);
    PrefixTransitive(w, z + body, Block(i, page));
    PrefixContained(w, Block(i, page));
    ContainsTransitive(Block(i, page), w, "\nURL: " + url);
  }

  /** The formatted text starts with the header, and is just the header when
      there are no pages. */
  lemma {:induction false} FormattedStartsWithHeader(pages: seq<Page>)
    ensures IsPrefix(Header, Formatted(pages))
    ensures pages == [] ==> Formatted(pages) == Header
  {
    if pages != [] {
      var front := pages[..|pages| - 1];
      FormattedStartsWithHeader(front);
      assert (Formatted(front) + Block(|pages|, pages[|pages| - 1]))[..|Header|] == Formatted(front)[..|Header|];
    }
  }

  /** Formatting a prefix of the pages gives a prefix of the text. */
  lemma {:induction false} FormattedPrefix(pages: seq<Page>, n: nat)
    requires n <= |pages|
    ensures IsPrefix(Formatted(pages[..n]), Formatted(pages))
    decreases |pages|
  {
    if n < |pages| {
      var front := pages[..|pages| - 1];
      assert front[..n] == pages[..n];
      FormattedPrefix(front, n);
      var ff := Formatted(front);
      assert (ff + Block(|pages|, pages[|pages| - 1]))[..|Formatted(pages[..n])|] == ff[..|Formatted(pages[..n])|];
    } else {
      assert pages[..n] == pages;
    }
  }

  /** Formatting one more page appends that page's block. */
  lemma FormattedSnoc(pages: seq<Page>, i: nat)
    requires i < |pages|
    ensures Formatted(pages[..i + 1]) == Formatted(pages[..i]) + Block(i + 1, pages[i])
  {
    assert pages[..i + 1][..i] == pages[..i];
  }

  /** Source `i + 1` comes right after the text for the first `i` pages: one
      block per page, numbered 1..n in page order. */
  lemma BlockInPlace(pages: seq<Page>, i: nat)
    requires i < |pages|
    ensures IsPrefix(Formatted(pages[..i]) + Block(i + 1, pages[i]), Formatted(pages))
  {
    FormattedPrefix(pages, i + 1);
    FormattedSnoc(pages, i);
  }

  /** Characters past the 2000th of a page's content never reach the
      formatted text: pages that agree on title, URL and the first 2000
      characters format identically. */
  lemma {:induction false} FormattedIgnoresCutContent(pages: seq<Page>, others: seq<Page>)
    requires |pages| == |others|
    requires forall k :: 0 <= k < |pages| ==>
      && pages[k].title == others[k].title && pages[k].url == others[k].url
      && Truncate(pages[k].content) == Truncate(others[k].content)
    ensures Formatted(pages) == Formatted(others)
  {
    if pages != [] {
      var n := |pages| - 1;
      FormattedIgnoresCutContent(pages[..n], others[..n]);
    }
  }

  /** `_format_content` as written: start from the header and append one block
      per page in `enumerate(..., 1)` order. The `query` argument is not used. */
  method FormatContent(pages: seq<Page>, query: string) returns (formatted: string)
    ensures formatted == Formatted(pages)
  {
    formatted := Header;
    for i := 0 to |pages|
      invariant formatted == Formatted(pages[..i])
    {
      FormattedSnoc(pages, i);
      formatted := formatted + Block(i + 1, pages[i]);
    }
    assert pages[..|pages|] == pages;
  }

  /** `_create_prompt`: the fixed opening, the query, the closing quote and
      the fixed instructions, then the formatted content after "Content to
      analyze:". */
  function CreatePrompt(formatted: string, query: string): string
  {
    PromptOpen + query + PromptInstructions + ContentLabel + formatted + "\n"
  }

  /** The prompt opens with the query between double quotes and ends with
      the formatted content under its label. */
  lemma PromptFrame(formatted: string, query: string)
    ensures IsPrefix(PromptOpen + query + "\"", CreatePrompt(formatted, query))
    ensures IsSuffix(ContentLabel + formatted + "\n", CreatePrompt(formatted, query))
  {
    var o := PromptOpen + query;
    var x := o + PromptInstructions;
    var r := x + ContentLabel + formatted + "\n";
    ConcatAssoc(o, "\"", Instructions);
    PrefixOfConcat(o + "\"", Instructions);
    PrefixOfConcat(x, ContentLabel);
    PrefixOfConcat(x + ContentLabel, formatted);
    PrefixOfConcat(x + ContentLabel + formatted, "\n");
    PrefixTransitive(o + "\"", x, x + ContentLabel);
    PrefixTransitive(o + "\"", x + ContentLabel, x + ContentLabel + formatted);
    PrefixTransitive(o + "\"", x + ContentLabel + formatted, r);
    ConcatAssoc(x + ContentLabel, formatted, "\n");
    ConcatAssoc(x, ContentLabel, formatted + "\n");
    ConcatAssoc(ContentLabel, formatted, "\n");
    SuffixOfConcat(x, ContentLabel + formatted + "\n");
  }

  /** For queries of one length, the prompt determines the query and the
      formatted content. */
  lemma CreatePromptInjective(f1: string, q1: string, f2: string, q2: string)
    requires |q1| == |q2|
    requires CreatePrompt(f1, q1) == CreatePrompt(f2, q2)
    ensures q1 == q2 && f1 == f2
  {
    var h1 := PromptOpen + q1 + PromptInstructions + ContentLabel;
    var h2 := PromptOpen + q2 + PromptInstructions + ContentLabel;
    ConcatCancel(h1 + f1, "\n", h2 + f2, "\n");
    ConcatCancel(h1, f1, h2, f2);
    ConcatCancel(PromptOpen + q1 + PromptInstructions, ContentLabel, PromptOpen + q2 + PromptInstructions, ContentLabel);
    ConcatCancel(PromptOpen + q1, PromptInstructions, PromptOpen + q2, PromptInstructions);
    ConcatCancel(PromptOpen, q1, PromptOpen, q2);
  }

  /** The formatted text holds every page's block. */
  lemma FormattedHoldsEverySource(pages: seq<Page>, i: nat)
    requires i < |pages|
    ensures Contains(Formatted(pages), Block(i + 1, pages[i]))
  {
    BlockInPlace(pages, i);
    PrefixPartContained(Formatted(pages[..i]), Block(i + 1, pages[i]), Formatted(pages));
  }

  /** Whatever the formatted text holds, the prompt built from it holds;
      with `FormattedHoldsEverySource`, the prompt carries every source's
      block. */
  lemma PromptHoldsFormatted(formatted: string, query: string, part: string)
    requires Contains(formatted, part)
    ensures Contains(CreatePrompt(formatted, query), part)
  {
    ContainsMiddle(PromptOpen + query + PromptInstructions + ContentLabel, formatted, "\n");
    ContainsTransitive(CreatePrompt(formatted, query), formatted, part);
  }
}
