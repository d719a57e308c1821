# Web research crawler: verified model of the pipeline's rules

The crawler answers a query in four stages: a search API call, page
extraction for every result URL in a thread pool, formatting of the
extracted pages, and a summarisation call. The I/O glue (HTTP, headless
browser, HTML-to-text conversion, the generative model, the terminal UI)
is kept out. What stays is the deterministic rules it wraps:

- `Config` (config.dfy): the credentials read from the environment, the
  fixed processing constants, and `_validate_config`. Validation refuses to
  start exactly when a credential is absent or empty, and names the missing
  ones in a fixed order.
- `Search` (search.dfy): the item filter of `fetch_search_results`, over a
  decoded API reply given as input. It drops items without a link and any
  link whose lower-cased form contains `.pdf`, `.doc` or `.docx`; defaults
  title and snippet to `""`; cuts the list to ten; returns `[]` on a
  non-200 status or an exception. Also modelled: the follow-on rule in
  `search` ("No search results found." or the list of links).
- `Extract` (extract_content.dfy): `extract_content` over a value-level
  element tree. It removes boilerplate subtrees, then applies the
  `main` / `article` / `div.content|main` / `body` priority chain and the
  title fallback, and turns every exception into `None`: one from the
  browser phase, from serialising the chosen node, from the converter or
  from closing the browser. The browser phase and the outcome of closing
  the browser are inputs; the serialiser and the HTML-to-text converter are
  function parameters that return text or raise. The declared retry
  schedule is modelled too.
- `Process` (process.dfy): `process_url` and the `as_completed` loop of
  `process_urls_concurrent`. These run as a sequential loop over an
  arbitrary completion order, given as input (an arrangement of the URL
  positions), with the rich progress task as a class whose `completed`
  field the methods update.
- `Summarize` (summarize.dfy): `_format_content` (a loop appending one
  numbered block per page, content cut at 2000 characters) and
  `_create_prompt` (the fixed prompt around the query and the formatted
  text).
- `Strings` (strings.dfy): the Python string operations the rules rely
  on: `in`, `lower`, `strip`, `str(n)`, `", ".join`, and `Option` for
  `None`.

## Behaviour of the code worth knowing

- **Progress.** `process_url` advances the bar only on a truthy result or
  on an exception, not on every outcome. `extract_content` never raises, so
  a failed page never moves the bar.
- **Retries.** Every failure inside `extract_content` becomes `None`, so
  the retry decorator never sees an exception. A page is attempted once.
- **Class fallback.** The class-based fallback matches only `div` elements
  with class `content` or `main`.
- **Title.** The title is the title element's `.string`, which is `None`
  when that element does not hold exactly one string. The formatted block
  then shows `None`.
- **End of the batch.** The bar is set to `completed=True`, which rich
  stores as the value 1, not to the total.

## Model

| member | source | states |
|---|---|---|
| Strings.Strip | src/extract_content.py:53 | `strip()` leaves no whitespace at either end, and the result is empty exactly when the input is all whitespace |
| Strings.StripSlice | src/extract_content.py:53 | the stripped text is a slice of the input with only whitespace cut on either side |
| Strings.StripIdempotent | src/extract_content.py:53 | stripping twice gives the same as stripping once |
| Strings.Lower | src/search.py:38 | `link.lower()` on ASCII: same length, no upper-case letter left, every other character unchanged, each letter moved by 32 to its lower-case partner |
| Strings.LowerAppend | src/search.py:38 | lower-casing distributes over concatenation, so a substring keeps its place in the lower-cased link |
| Strings.LowerIdempotent | src/search.py:38 | lower-casing twice is lower-casing once |
| Strings.NatToString | src/summarize.py:22-24 | `str(i)` is a non-empty run of decimal digits without a leading zero |
| Strings.ParseNatToString | src/summarize.py:24 | the source number printed in a heading reads back as that number |
| Strings.Join | src/config.py:43 | defined as `", ".join(xs)`: the parts with the separator between each two; `SplitJoin` reads the parts back |
| Strings.SplitJoin | src/config.py:43 | joining comma-free names with `", "` and splitting at commas gives the names back |
| Config.GetEnv | src/config.py:9-11 | defined as `os.getenv(name)`: the variable's value, or `None` when it is not set; `Load` states what it leads to |
| Config.FalsyNames | src/config.py:40 | defined as the names, in dictionary order, whose value is `None` or empty; `MissingVars` states the result for the three credentials |
| Config.MissingVars | src/config.py:34-40 | the missing names are GOOGLE_API_KEY, GOOGLE_CX, GEMINI_API_KEY, each present exactly when its value is `None` or empty, in that order |
| Config.ValidateConfig | src/config.py:32-43 | validation fails exactly when some credential is `None` or empty, with the message "Missing required environment variables: " followed by the missing names joined by `", "` |
| Config.ValidationMessageNamesMissing | src/config.py:40-43 | the failure message determines the list of missing names |
| Config.Load | src/config.py:5-30 | loading succeeds exactly when all three variables are set and non-empty, and records their values and the constants 10, 3 and 10 |
| Search.AdmittedIndices | src/search.py:37-38 | the positions of the items that have a string link none of `.pdf`, `.doc`, `.docx` occurs in (lower-cased): increasing, and every such item included |
| Search.Blocked | src/search.py:38 | defined as: the lower-cased link contains `.pdf`, `.doc` or `.docx`; `BlockedAnywhere` and `DocxCoveredByDoc` state what the test amounts to |
| Search.GetOrEmpty | src/search.py:40-42 | defined as `item.get(key, "")`: the item's value for the key, or `""` when the key is absent |
| Search.Record | src/search.py:39-43 | defined as the `{title, link, snippet}` record of an item, title and snippet through `GetOrEmpty` |
| Search.Kept | src/search.py:36-43 | defined as the loop's `results` list; `KeptAreAdmitted` states that it holds the admitted items' records in input order |
| Search.KeptAreAdmitted | src/search.py:37-43 | the loop's records are, in input order, the records of exactly the admitted items |
| Search.SearchResults | src/search.py:32-53 | at most `max_results` records, none with a blocked link, and `[]` on an exception or a non-200 status |
| Search.SearchResultsOfReply | src/search.py:37-45 | on a 200 reply, record k is the k-th admitted item: link copied, missing title or snippet become `""`, length `min(max_results, admitted)` |
| Search.SearchResultsWhenRaising | src/search.py:37-53 | a present non-string link raises in `lower()`, and the whole search returns `[]` |
| Search.FetchSearchResults | src/search.py:34-53 | the filtering loop followed by the slice computes `SearchResults` with the configured maximum of 10 |
| Search.PlanExtraction | src/search.py:71-75 | no results give exactly "No search results found."; otherwise the URLs are the links in result order |
| Search.PlannedUrls | src/search.py:70-75 | the URLs handed to extraction number 1 to 10, none is blocked, and each is the link of a distinct admitted item in input order |
| Search.DocxCoveredByDoc | src/search.py:38 | adding `.docx` to the filter changes nothing once `.doc` is there |
| Search.BlockedAnywhere | src/search.py:38 | any link that has `.pdf` or `.doc`, in any letter case, anywhere in it is blocked |
| Search.DockerHostBlocked | src/search.py:38 | an instance of `BlockedAnywhere`: `https://www.Docker.com/` is dropped because of its host name |
| Extract.Clean | src/extract_content.py:37-38 | no `script`, `style`, `nav`, `footer`, `header` or `aside` element remains anywhere in the cleaned document |
| Extract.CleanKeepsVisible | src/extract_content.py:37-38 | the cleaned document's bracket sequence (open tag with classes, children, close; text) is the original's with every boilerplate subtree cut out, so each kept node keeps its parent, its children and its order among its siblings |
| Extract.DecodeShape | src/extract_content.py:37-38 | a forest's bracket sequence reads back as that forest, whatever unmatched closing input follows |
| Extract.ShapeInjective | src/extract_content.py:37-38 | forests with the same bracket sequence are equal |
| Extract.CleanIsVisibleForest | src/extract_content.py:37-38 | the cleaned document is exactly the one forest whose bracket sequence is the original's with the boilerplate subtrees cut out |
| Extract.CleanKeepsFree | src/extract_content.py:37-38 | a document without boilerplate is left unchanged |
| Extract.CleanIdempotent | src/extract_content.py:37-38 | cleaning twice is cleaning once |
| Extract.Find | src/extract_content.py:41-43 | `find` returns `None` exactly when nothing matches, and otherwise the first match in document order |
| Extract.SelectMain | src/extract_content.py:41-43 | the first `main`, else the first `article`, else the first `div` of class `content` or `main`, else the first `body`, else nothing |
| Extract.TitleOf | src/extract_content.py:52 | "No title" when the document has no title element, otherwise the `.string` of the first one |
| Extract.StringOf | src/extract_content.py:52 | defined as bs4's `.string`: a text's own text, and for an element the `.string` of its only child, or `None` when it has zero or several children; `TitleOf` states its use |
| Extract.Markup | src/extract_content.py:46 | defined as `str(main_content)`: the serialiser's output for the chosen node, which may raise, or the text "None" when nothing was chosen |
| Extract.Converted | src/extract_content.py:46 | defined as `html_converter.handle(str(main_content))` for the chosen part of the cleaned document, failing when serialising or converting raises |
| Extract.ExtractContent | src/extract_content.py:16-58 | `None` exactly when the browser phase, the serialiser, the converter or `browser.close()` raised; otherwise the same URL, the title rule, and the stripped converter text of the chosen node of a boilerplate-free document |
| Extract.ExtractedContentTrimmed | src/extract_content.py:46-53 | a returned record's content begins and ends with non-whitespace and is the converter's text with only surrounding whitespace removed |
| Extract.Backoff | src/extract_content.py:15 | the declared wait is always in [4, 10]: 4 when `2 ** (attempt - 1)` is at most 4, 10 when it is at least 10, and `2 ** (attempt - 1)` itself in between |
| Extract.BackoffWithinAttempts | src/extract_content.py:15 | within the three declared attempts every wait is 4 |
| Summarize.Block | src/summarize.py:23-30 | defined as the f-string block: newline, `### Source {i}: {title}`, `URL: {url}`, a blank line, `content[:2000]`, the verbatim note and `\n\n---\n`; `BlockContents` states its parts |
| Summarize.Formatted | src/summarize.py:21-31 | defined as the header followed by one block per page, numbered from 1; `FormatContent` computes it, and `BlockInPlace` and `FormattedPrefix` state its layout |
| Summarize.Truncate | src/summarize.py:27 | `content[:2000]` is a prefix of the content of length `min(len, 2000)` |
| Summarize.BlockContents | src/summarize.py:23-30 | each block opens with its number and title, names the URL, and ends with the cut content, the verbatim `  # Limit content length per source` and `\n\n---\n` |
| Summarize.FormattedStartsWithHeader | src/summarize.py:21-31 | the formatted text begins with "# Source Materials:\n\n" and is exactly that for no pages |
| Summarize.FormattedPrefix | src/summarize.py:22-31 | formatting the first n pages gives a prefix of formatting all of them |
| Summarize.BlockInPlace | src/summarize.py:22-30 | block i + 1 for page i comes right after the text for the first i pages: one block per page, numbered from 1 in input order |
| Summarize.FormattedHoldsEverySource | src/summarize.py:22-30 | every page's block, with its title and URL, occurs in the formatted text |
| Summarize.FormattedIgnoresCutContent | src/summarize.py:27 | pages agreeing on title, URL and first 2000 characters format identically |
| Summarize.FormatContent | src/summarize.py:19-31 | the `enumerate` loop produces the formatted text; the query argument is unused |
| Summarize.CreatePrompt | src/summarize.py:33-49 | defined as the fixed opening, the query in double quotes, the fixed instructions, `Content to analyze:\n`, the formatted text and a newline; `PromptFrame`, `CreatePromptInjective` and `PromptHoldsFormatted` state its layout |
| Summarize.PromptFrame | src/summarize.py:33-49 | the prompt opens with the fixed text and the query in double quotes, and ends with "Content to analyze:\n", the formatted text and a newline |
| Summarize.CreatePromptInjective | src/summarize.py:35-49 | for queries of one length, the prompt determines both the query and the formatted text |
| Summarize.PromptHoldsFormatted | src/summarize.py:47-48 | whatever the formatted text holds occurs in the prompt |
| Process.UrlResult | src/process.py:14-21 | defined as what `process_url` returns: the extractor's result, or `None` after an exception; `ProcessUrl` returns it |
| Process.Advances | src/process.py:15-20 | defined as: the call raised, or returned a truthy (non-`None`) result; `ProcessUrl` ticks exactly then |
| Process.Collected | src/process.py:42-47 | the batch keeps at most one page per finished call |
| Process.Ticks | src/process.py:14-21 | the progress count is at most the number of calls |
| Process.ProgressTask.constructor | src/process.py:34 | a new task records the total and starts at 0 |
| Process.ProgressTask.Advance | src/process.py:16 | `advance=1` adds one to `completed` |
| Process.ProgressTask.MarkCompleted | src/process.py:51 | `completed=True` sets `completed` to 1 |
| Process.ProcessUrl | src/process.py:11-21 | the result is the extractor's result, or `None` after an exception; the bar moves by one exactly on a truthy result or an exception |
| Process.CollectCompleted | src/process.py:42-49 | the loop keeps the truthy results in completion order and moves the bar once per truthy result or exception |
| Process.ProcessUrlsConcurrent | src/process.py:23-52 | a fresh task with total `len(urls)` ends at 1; the results are the truthy results in completion order, at most one per URL, and `[]` for no URLs |
| Process.CollectedAppend | src/process.py:42-47 | the pages collected over two runs of calls are those of the first run followed by those of the second |
| Process.TicksAppend | src/process.py:14-21 | the bar's movement over two runs of calls is the sum of its movement over each |
| Process.CollectStep | src/process.py:42-47 | taking the next finished call in completion order appends its page, if it has one, and its tick |
| Process.PageOfMember | src/process.py:45-47 | a call contributes a page exactly when it returned that page |
| Process.RaisedCallSkipped | src/process.py:18-21 | a call that raised contributes no page and one tick, and the calls after it are still collected |
| Process.CollectedMembers | src/process.py:42-47 | a page is in the batch exactly when some call returned it |
| Process.CollectedInCompletionOrder | src/process.py:42-47 | the batch is the returned pages in the order their calls finished, a subsequence of the completion order |
| Process.CollectedPermutation | src/process.py:42-47 | reordering the calls reorders the pages and nothing else: same multiset of pages, same tick count |
| Process.InOrderPermutation | src/process.py:37-42 | two completion orders over the same positions take the same calls |
| Process.BatchKeepsTruthyResults | src/process.py:36-52 | whatever the completion order, the batch holds exactly the truthy results of the calls, with multiplicity, and the tick count is that of the calls |
| Process.ExtractorCallsTickPerPage | src/process.py:14-21 | when no call raises, the bar moves exactly once per collected page |
| Process.ExtractorCalls | src/process.py:37-40 | one extractor call per submitted URL, duplicates included |
| Process.ExtractorBatchTicksPerPage | src/process.py:14-21 | for a batch of `extract_content` calls in any completion order, the bar moves exactly once per collected page, because the extractor never raises |
| Process.BatchPagesNameTheirUrls | src/process.py:42-47 | every page of the batch carries the URL of one of the submitted visits |
| Process.EveryPositionCollected | src/process.py:37-40 | every submission is its own call: when all calls return a page, there is one page per URL, repeated URLs included |

## Left out

- The HTTP request to the search API and its JSON decoding (src/search.py:23-35): the model takes the status and the decoded items as input.
- Item fields other than scalar JSON values: the items are maps to null, booleans, integers or strings.
- Lower-casing beyond ASCII: `Lower` changes only `A`-`Z`. The needles are ASCII, and no non-ASCII character lowers to `.`, `p`, `d`, `f`, `o` or `c`.
- The headless browser (launch, context, navigation, timeouts, `page.content()`, src/extract_content.py:19-34) and the HTML parser: the model takes the parsed document, or the failure, as input.
- The HTML-to-text converter and tag serialisation (src/extract_content.py:10-13, 46): they are opaque function parameters that return text or raise.
- The converter's shared state: one `html2text.HTML2Text` instance (src/extract_content.py:10, 46) serves every worker thread (src/process.py:36-40). The model's converter is a pure function, so interference between concurrent `handle` calls on that shared instance is not modelled.
- Extract.Clean: the `decompose()` loop mutates the parsed tree in place. The model computes the cleaned tree as a new value, so aliasing of nodes is not modelled.
- The tenacity decorator's runtime behaviour (sleeping, re-invocation), which is a foreign library. Only its declared schedule is modelled. It never fires because `extract_content` never raises.
- The thread pool, `as_completed` scheduling and the 10-worker bound (src/process.py:36-42): the completion order is an input, and the calls run one after another.
- Warning and error printing (src/process.py:19, 49; src/extract_content.py:57; src/search.py:48, 52): console output.
- The progress bars of the search stage and their descriptions (src/search.py:21, 44-51): terminal UI.
- The Gemini client, its generation settings and `summarize` itself (src/summarize.py:8-17, 51-60): a foreign call.
- The rest of `search` after the URL list (src/search.py:77-102): progress tasks, the hand-off to the batch and the summariser, JSON persistence, `os.makedirs` and `time.time()` timing. These are orchestration, file I/O and clocks; `os.makedirs` in the configuration (src/config.py:15) likewise.
- `load_dotenv` (src/config.py:6): the environment is an input map.
- main.py: terminal UI and `asyncio.run`.
