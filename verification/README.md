# FAQ browser core, modelled in Dafny

The FAQ page of this repository has two pieces of real logic. The rest is styling and
fetch plumbing. The model covers both pieces:

- **The markdown-subset renderer** (`parseMarkdownToReact`). It turns a documentation
  excerpt into display blocks, one per line. A line is a heading of level 4, 3, 2 or 1,
  a list item, or a paragraph. Inline `**bold**` runs inside non-heading lines become
  bold spans. Modelled in `text.dfy` (the `\s` and `\d` classes, `split("\n")`,
  `trim()`), `inline.dfy` (the bold split) and `markdown.dfy` (line classification).
- **The page's view state** (`FAQPage`, `FAQAccordion`):
  - `search.dfy` covers query submission as a state machine over user actions and
    request completions, and what the result box shows for each response shape.
  - `catalog.dfy` covers category filtering and the counts on the category buttons.
  - `accordion.dfy` covers the single-open accordion: toggling, which entry is
    expanded, the category icons and the "Read more" link.

Everything is a pure function over immutable datatypes. Network replies are inputs to
the `Completed` event. Strings are `seq<char>`. `IsWhitespace` is the ECMAScript set
that both `\s` and `trim()` use (WhiteSpace plus LineTerminator). `IsDigit` is ASCII
`0`-`9`.

Behaviours of the code worth knowing:

- An absent or empty text parses to one paragraph holding one empty plain span
  (`Markdown.ParseEmpty`).
- `split` with a capturing separator keeps the empty plain fragments at the ends.
  So `**a** and **b**` gives the five spans `""`, bold `a`, `" and "`, bold `b` and `""`
  (`Markdown.ExampleTwoBoldRuns`).
- An FAQ answer with an empty `retrieved` list shows the answer twice: once from the
  FAQ branch and once from the fallback branch (`Search.DisplayCases`).
- A document answer whose `retrieved` field is missing shows an empty result box. The
  test `undefined === 0` is false, so the fallback branch does not fire either.

One more behaviour follows from the code as written. Record ids are compared with `===`
against an open id that starts as `null`. So a record whose id is `null` shows expanded
while nothing is open. `Accordion.Render` states this: an entry is expanded exactly
when its id equals the open id. `Accordion.StaleOpenIdExpandsNothing` needs its
precondition for the same reason.

## Model

| member | source | states |
|---|---|---|
| Text.SplitLines | frontend/src/pages/faq.js:6 | Splitting on line feeds gives one piece per line feed plus one, and no piece contains a line feed |
| Text.JoinSplitLines | frontend/src/pages/faq.js:6 | Splitting loses no text: joining the pieces with line feeds gives back the input |
| Text.SplitJoinLines | frontend/src/pages/faq.js:6 | Line-feed-free lines, once joined, split back into exactly those lines |
| Text.Trim | frontend/src/pages/faq.js:61-62 | The trimmed query is empty exactly when the query is all whitespace; otherwise it is the query minus its maximal whitespace prefix and suffix, and starts and ends with non-whitespace |
| Inline.MatchAt | frontend/src/pages/faq.js:13 | A match of the bold pattern found at a position is a whole `**x**` run, where x is non-empty and has no asterisk |
| Inline.MatchAtShift | frontend/src/pages/faq.js:13 | Whether a bold run starts at a position depends only on the text from that position on |
| Inline.MatchAtComplete | frontend/src/pages/faq.js:13 | The matcher misses no bold run: any `**x**` run starting at a position is the match reported there |
| Inline.FragmentsConcat | frontend/src/pages/faq.js:13 | The fragments of the split, concatenated, give back the line |
| Inline.FragmentsShape | frontend/src/pages/faq.js:13-14 | Fragments alternate: the matched separators, at odd positions, are bold runs; no bold run starts inside the text between them |
| Inline.InlineRoundTrip | frontend/src/pages/faq.js:13-16 | Joining the spans, with plain text verbatim and bold text re-wrapped in `**`, gives back the line exactly |
| Inline.ParseInlineIsLeftmost | frontend/src/pages/faq.js:13-16 | Spans alternate plain and bold, starting and ending with plain; bold text is non-empty and has no asterisk; no bold run starts inside plain text |
| Inline.LeftmostSplitUnique | frontend/src/pages/faq.js:13-16 | Any span list that renders to the line and has the leftmost-split shape is the parser's span list |
| Markdown.Parse | frontend/src/pages/faq.js:5-7 | The parser returns one block per line: the number of line feeds plus one, with an absent text read as empty |
| Markdown.ParseEmpty | frontend/src/pages/faq.js:6 | An absent or empty text gives one paragraph holding one empty plain span |
| Markdown.ParseJoinedLines | frontend/src/pages/faq.js:6-7 | Lines are never merged or dropped: block i of a joined text is the parse of line i alone |
| Markdown.HeadingMarkersExclusive | frontend/src/pages/faq.js:8-11 | At most one of the four heading markers matches a line |
| Markdown.HeadingClassification | frontend/src/pages/faq.js:8-11 | A line is a heading of level k exactly when it starts with k hashes and a whitespace character; the heading text is the rest of the line, with no bold parsing |
| Markdown.NonHeadingLine | frontend/src/pages/faq.js:13-29 | A non-heading line is a list item or paragraph whose spans render back to the whole line, so list markers are kept |
| Markdown.BulletLineIff | frontend/src/pages/faq.js:18 | The bullet test holds exactly when `^\s*[-*]\s+` matches: whitespace, a dash or asterisk, then whitespace |
| Markdown.NumberedLineIff | frontend/src/pages/faq.js:18 | The numbered test holds exactly when `^\s*\d+\.\s+` matches: whitespace, one or more digits, a dot, then whitespace |
| Markdown.ListOrParagraph | frontend/src/pages/faq.js:18-30 | A non-heading line is a list item exactly when either list pattern matches, and a paragraph otherwise; both carry the line's spans |
| Markdown.NoHashStart | frontend/src/pages/faq.js:8-30 | A line not opening with `#` is never a heading; it is a list item exactly when the bullet or numbered test holds, and a paragraph otherwise |
| Markdown.StarStarStart | frontend/src/pages/faq.js:13-30 | A line opening with `**` is a paragraph, not a bullet, because the second asterisk is not whitespace |
| Markdown.NoStarsOneSpan | frontend/src/pages/faq.js:13-16 | A line with no asterisk is not split: it is one plain span holding the whole line |
| Markdown.ExampleHeadingLevel3 | frontend/src/pages/faq.js:9 | `### Title` is a level-3 heading with text `Title` |
| Markdown.ExampleHeadingLevel4 | frontend/src/pages/faq.js:8 | `#### Title` is a level-4 heading with text `Title` |
| Markdown.ExampleFiveHashes | frontend/src/pages/faq.js:8-11 | `##### Title` matches no heading marker and is a paragraph |
| Markdown.ExampleHeadingLevel1 | frontend/src/pages/faq.js:11 | `# H` is a level-1 heading with text `H` |
| Markdown.ExampleTwoBoldRuns | frontend/src/pages/faq.js:13-16 | `**a** and **b**` splits into plain "", bold a, plain " and ", bold b, plain "" |
| Markdown.ExampleUnterminatedBold | frontend/src/pages/faq.js:13-16 | `**oops` stays one plain span in a paragraph |
| Markdown.ExampleBulletItem | frontend/src/pages/faq.js:18-24 | `- item` is a list item whose text keeps the `- ` marker |
| Markdown.ExampleNumberedItem | frontend/src/pages/faq.js:18-24 | `1. item` is a list item whose text keeps the `1. ` marker |
| Markdown.ExampleBoldOpening | frontend/src/pages/faq.js:13-30 | `**x** y` is a paragraph, not a bullet, with spans "", bold x, " y" |
| Markdown.ExampleBoldLine | frontend/src/pages/faq.js:13-30 | `**b**` is a paragraph with spans "", bold b, "" |
| Markdown.ExampleExcerpt | frontend/src/pages/faq.js:5-32 | `# H` newline `**b**` parses to a level-1 heading `H` and a paragraph holding bold `b` |
| Catalog.Flatten | frontend/src/pages/faq.js:87 | A record is listed under "All Categories" exactly when some category of the index holds it |
| Catalog.FlattenSingle | frontend/src/pages/faq.js:87 | A single category flattens to exactly its own records |
| Catalog.FlattenAppend | frontend/src/pages/faq.js:87 | Flattening keeps index order: the records of two index parts joined are the first part's records followed by the second's |
| Catalog.FlattenLength | frontend/src/pages/faq.js:87 | The flattened list holds as many records as all categories together |
| Catalog.FlattenBlock | frontend/src/pages/faq.js:87 | The records of category i appear as one contiguous block, in their own order, right after the records of all earlier categories |
| Catalog.Lookup | frontend/src/pages/faq.js:88 | A named category lists the records of the first index entry with that name, and nothing when no entry has it |
| Catalog.VisibleByCategory | frontend/src/pages/faq.js:85-88 | "All Categories" lists the records of every category, category after category in index order, and no others; any other name lists exactly that category's records, or nothing if it is absent |
| Catalog.CategoryButtons | frontend/src/pages/faq.js:194-198 | There is one button per fixed category name, in order, and each shows the number of records clicking it would list |
| Catalog.AllCountIsSum | frontend/src/pages/faq.js:195-198 | The "All Categories" count is the sum of the counts of the index's own categories |
| Accordion.Toggle | frontend/src/components/FAQAccordion.js:7-9 | After a toggle the open id is null or the id just toggled; it is null exactly when that id was open, or the id is itself null |
| Accordion.ToggleTwice | frontend/src/components/FAQAccordion.js:7-9 | Toggling one id twice restores the state exactly when nothing or that id was open; from another open id it ends closed |
| Accordion.ToggleSwitches | frontend/src/components/FAQAccordion.js:7-9 | From closed, toggling X and then a different Y leaves Y open, and only entries with id Y are expanded |
| Accordion.Render | frontend/src/components/FAQAccordion.js:13-80 | One entry per record, in order; an entry is expanded, with the open marker and an answer panel, exactly when its id equals the open id; the answer is verbatim; the link appears exactly when `source_url` is non-empty |
| Accordion.AtMostOneExpanded | frontend/src/components/FAQAccordion.js:57-62 | With distinct ids at most one entry is expanded |
| Accordion.StaleOpenIdExpandsNothing | frontend/src/components/FAQAccordion.js:62 | An open id that matches no current record expands nothing |
| Accordion.Icon | frontend/src/components/FAQAccordion.js:44-52 | Account, Payments, Security and API Integration get their own icons; any other category gets the question-mark icon |
| Accordion.IconDeterminesCategory | frontend/src/components/FAQAccordion.js:44-52 | The four category icons differ from each other and from the fallback, so an icon other than the fallback identifies its category |
| Search.Step | frontend/src/pages/faq.js:59-83 | A blank query changes nothing and sends nothing; a non-blank one sends the trimmed query, sets loading and clears the result; a completion always clears loading and stores data only on success; editing the query sets the query, clicking a category sets the category, and neither touches loading or the result nor sends a request; no event touches fields it does not own |
| Search.BlankSubmitIsNoOp | frontend/src/pages/faq.js:61-62 | Submitting a query that trims to empty leaves the whole state unchanged and sends no request |
| Search.SubmitThenComplete | frontend/src/pages/faq.js:59-83 | Submit then complete: loading ends false; the result is the data on success and none on any failure; the category and query are unchanged; while loading, the result box is empty |
| Search.SuccessfulReplyStored | frontend/src/pages/faq.js:74-77 | A 2xx reply with a JSON body is stored as received and loading ends |
| Search.DisplayCases | frontend/src/pages/faq.js:135-180 | The result box for every response shape, including the doubled answer for an FAQ answer with an empty list and the empty box for a document answer with no list |
| Search.NoResultNoDisplay | frontend/src/pages/faq.js:135 | Without a search result nothing is shown |
| Search.OnlyFirstItemMatters | frontend/src/pages/faq.js:148-170 | Retrieved items after the first never change the result box |
| Search.DisplayAtMostTwo | frontend/src/pages/faq.js:146-180 | The box holds at most two pieces; the answer appears twice exactly for an FAQ answer with an empty list |
| Search.ExampleDocsResult | frontend/src/pages/faq.js:166-173 | A document answer shows the parsed excerpt and the source file name, not the answer text |

## Left out

- frontend/src/index.js: it only mounts the page and has no logic.
- The `fetch` calls, JSON decoding, the `API_BASE` environment lookup and `console.error`. Each reply is an input to the `Completed` event.
- React machinery: `useState`, `useEffect`, keys, `preventDefault` and inline styles.
- The navigation buttons that set `window.location`. They are navigation, not state.
- The `icon` fields of the category list, which are all empty strings.
- Overlapping searches in flight. This is concurrency; the model runs submissions and completions as one sequential event stream.
- Catalog.Flatten: JavaScript's `Object.values` lists integer-like keys first. The model takes the index order as given.
- Catalog.Lookup: prototype properties such as `constructor` are not modelled as index entries.
- Search.Item: `question`, `answer` and `filename` are strings. An absent field, which React renders as nothing, is not modelled.
- Catalog.Id: numeric ids are integers. Fractional JSON numbers are not modelled.
- Characters are Unicode scalar values, not UTF-16 code units. No character involved (`*`, `#`, `-`, `.`, digits, the whitespace set) is a surrogate, so the regular expressions behave the same either way.
- The `split` limit of 2^32 - 1 fragments is not modelled.
