/** The FAQ page's own state: the active category, the query being typed, the last
    search result and the loading flag; the search submission as a small state machine;
    and what the result box shows for a search response. */
module Search {
  import opened Wrappers
  import opened Text
  import opened Markdown
  import opened Catalog

  /** One element of a response's `retrieved` list. FAQ hits carry a question, document
      hits carry the merged excerpt text and the file it came from. */
  datatype Item = Item(question: string, mergedContent: Option<string>, filename: string)

  /** A search response: `source` and `retrieved` may be absent or null. */
  datatype SearchResponse = SearchResponse(source: Option<string>, answer: string, retrieved: Option<seq<Item>>)

  /** The body of an HTTP reply: JSON (possibly the literal `null`) or something that does not parse. */
  datatype Payload = Json(data: Option<SearchResponse>) | Malformed

  /** How a search request ends: a reply with a status, or a failure to reach the server. */
  datatype Reply = Response(status: int, payload: Payload) | TransportFailure

  datatype ViewState = ViewState(activeCategory: string, query: string, searchResult: Option<SearchResponse>, loading: bool)

  /** The user's actions and the completion of a search request. */
  datatype Event =
    | QueryEdited(text: string)
    | CategoryClicked(name: string)
    | Submitted
    | Completed(reply: Reply)

  /** The next state and the search request sent, if any (the trimmed query). */
  datatype Transition = Transition(next: ViewState, request: Option<string>)

  const Initial: ViewState := ViewState(AllCategories, "", None, false)

  /** `res.ok`: a 2xx status. */
  predicate IsOk(status: int) {
    200 <= status <= 299
  }

  /** The data a completed request stores, or `None` when the request failed. */
  function Received(reply: Reply): Option<Option<SearchResponse>> {
    match reply
    case TransportFailure => None
    case Response(status, payload) =>
      if !IsOk(status) then None
      else match payload
        case Malformed => None
        case Json(data) => Some(data)
  }

  /** One event. Submitting a blank query does nothing; otherwise it sends the trimmed
      query, shows the loading flag and hides the previous result. A completed request
      always clears the loading flag and stores the data only when it succeeded. */
  function Step(s: ViewState, e: Event): (t: Transition)
    ensures t.request.Some? <==> e.Submitted? && !AllWhitespace(s.query)
    ensures t.request.Some? ==> t.request.value == Trim(s.query) && t.request.value != []
    ensures e.Submitted? && AllWhitespace(s.query) ==> t.next == s
    ensures t.request.Some? ==> t.next.loading && t.next.searchResult == None
    ensures e.Completed? ==> !t.next.loading
    ensures e.Completed? && Received(e.reply).None? ==> t.next.searchResult == s.searchResult
    ensures e.Completed? && Received(e.reply).Some? ==> t.next.searchResult == Received(e.reply).value
    ensures !e.CategoryClicked? ==> t.next.activeCategory == s.activeCategory
    ensures !e.QueryEdited? ==> t.next.query == s.query
    ensures e.QueryEdited? ==> t.next.query == e.text
    ensures e.CategoryClicked? ==> t.next.activeCategory == e.name
    ensures e.QueryEdited? || e.CategoryClicked? ==>
      t.next.loading == s.loading && t.next.searchResult == s.searchResult && t.request.None?
  {
    match e
    case QueryEdited(text) => Transition(s.(query := text), None)
    case CategoryClicked(name) => Transition(s.(activeCategory := name), None)
    case Submitted =>
      var trimmed := Trim(s.query);
      if trimmed == [] then Transition(s, None)
      else Transition(s.(loading := true, searchResult := None), Some(trimmed))
    case Completed(reply) =>
      match Received(reply)
      case None => Transition(s.(loading := false), None)
      case Some(data) => Transition(s.(loading := false, searchResult := data), None)
  }

  /** Runs a sequence of events, one after another. */
  function Run(s: ViewState, events: seq<Event>): ViewState
    decreases |events|
  {
    if |events| == 0 then s else Run(Step(s, events[0]).next, events[1..])
  }

  // ---------------------------------------------------------------------------
  // the result box
  // ---------------------------------------------------------------------------

  /** What the result box shows, piece by piece, in order. */
  datatype Piece =
    | QuestionHeading(text: string)   // retrieved[0].question as a heading
    | AnswerText(text: string)        // the answer, whitespace preserved
    | FallbackAnswer(text: string)    // the answer in the italic fallback style
    | Excerpt(blocks: seq<Block>)     // retrieved[0].merged_content, parsed
    | SourceFile(name: string)        // retrieved[0].filename

  /** `retrieved?.length > 0` */
  predicate HasHits(r: SearchResponse) {
    r.retrieved.Some? && |r.retrieved.value| > 0
  }

  /** `retrieved?.length === 0`: false when `retrieved` is absent. */
  predicate HasNoHits(r: SearchResponse) {
    r.retrieved.Some? && |r.retrieved.value| == 0
  }

  /** The three independent sections of the result box: the FAQ section, the document
      section and the fallback. More than one of them can show. */
  function FaqSection(r: SearchResponse): seq<Piece> {
    if r.source != Some("faq") then []
    else if HasHits(r) then [QuestionHeading(r.retrieved.value[0].question), AnswerText(r.answer)]
    else [FallbackAnswer(r.answer)]
  }

  function DocsSection(r: SearchResponse): seq<Piece> {
    if r.source == Some("docs") && HasHits(r) then
      [Excerpt(Parse(r.retrieved.value[0].mergedContent)), SourceFile(r.retrieved.value[0].filename)]
    else []
  }

  function FallbackSection(r: SearchResponse): seq<Piece> {
    if !IsTruthy(r.source) || HasNoHits(r) then [FallbackAnswer(r.answer)] else []
  }

  /** The result box; nothing at all when there is no search result. */
  function Display(result: Option<SearchResponse>): seq<Piece> {
    match result
    case None => []
    case Some(r) => FaqSection(r) + DocsSection(r) + FallbackSection(r)
  }

  // ---------------------------------------------------------------------------
  // properties
  // ---------------------------------------------------------------------------

  /** A blank query (empty after trimming) changes nothing and sends nothing. */
  lemma BlankSubmitIsNoOp(s: ViewState)
    requires AllWhitespace(s.query)
    ensures Step(s, Submitted) == Transition(s, None)
  {
  }

  /** A search run start to finish: submit a non-blank query, then the request completes.
      Loading is off afterwards; the result is the received data on success and stays
      empty on any failure (unreachable server, non-2xx status, unparsable body); the
      category and query are untouched; while waiting, the result box shows nothing. */
  lemma SubmitThenComplete(s: ViewState, reply: Reply)
    requires !AllWhitespace(s.query)
    ensures Step(s, Submitted).next.loading
    ensures Display(Step(s, Submitted).next.searchResult) == []
    ensures var final := Run(s, [Submitted, Completed(reply)]);
      && !final.loading
      && final.searchResult == (if Received(reply).Some? then Received(reply).value else None)
      && final.activeCategory == s.activeCategory
      && final.query == s.query
  {
    var t := Step(s, Submitted);
    assert [Submitted, Completed(reply)][1..] == [Completed(reply)];
    assert Run(s, [Submitted, Completed(reply)]) == Run(t.next, [Completed(reply)]);
    assert Run(t.next, [Completed(reply)]) == Step(t.next, Completed(reply)).next;
  }

  /** A reply with a 2xx status and a JSON body is stored as it is, replacing whatever
      was stored before. */
  lemma SuccessfulReplyStored(s: ViewState, status: int, data: Option<SearchResponse>)
    requires IsOk(status)
    ensures Step(s, Completed(Response(status, Json(data)))).next == s.(loading := false, searchResult := data)
  {
  }

  /** The result box for every shape of response. Only the first retrieved item is
      consulted. An FAQ answer with an empty `retrieved` list shows the answer twice,
      once from the FAQ section and once from the fallback; an absent `retrieved` list
      shows nothing for a document answer. */
  lemma DisplayCases(r: SearchResponse)
    ensures r.source == Some("faq") && HasHits(r) ==>
      Display(Some(r)) == [QuestionHeading(r.retrieved.value[0].question), AnswerText(r.answer)]
    ensures r.source == Some("faq") && HasNoHits(r) ==>
      Display(Some(r)) == [FallbackAnswer(r.answer), FallbackAnswer(r.answer)]
    ensures r.source == Some("faq") && r.retrieved.None? ==>
      Display(Some(r)) == [FallbackAnswer(r.answer)]
    ensures r.source == Some("docs") && HasHits(r) ==>
      Display(Some(r)) == [Excerpt(Parse(r.retrieved.value[0].mergedContent)), SourceFile(r.retrieved.value[0].filename)]
    ensures r.source == Some("docs") && r.retrieved.None? ==> Display(Some(r)) == []
    ensures r.source != Some("faq") && (!IsTruthy(r.source) || HasNoHits(r)) ==>
      Display(Some(r)) == [FallbackAnswer(r.answer)]
    ensures IsTruthy(r.source) && r.source != Some("faq") && r.source != Some("docs") && !HasNoHits(r) ==>
      Display(Some(r)) == []
  {
  }

  /** No search result, no result box. */
  lemma NoResultNoDisplay()
    ensures Display(None) == []
  {
  }

  /** Only the first retrieved item matters: the items after it never change the box. */
  lemma OnlyFirstItemMatters(r: SearchResponse, first: Item, more1: seq<Item>, more2: seq<Item>)
    ensures Display(Some(r.(retrieved := Some([first] + more1))))
         == Display(Some(r.(retrieved := Some([first] + more2))))
  {
  }

  /** The fallback answer is shown twice only for an FAQ answer with an empty
      `retrieved` list, and the box is never longer than two pieces. */
  lemma DisplayAtMostTwo(r: SearchResponse)
    ensures |Display(Some(r))| <= 2
    ensures Display(Some(r)) == [FallbackAnswer(r.answer), FallbackAnswer(r.answer)] <==>
      r.source == Some("faq") && HasNoHits(r)
  {
  }

  /** A document answer: the excerpt is parsed into blocks and the file name is shown;
      the answer text itself is not. */
  lemma ExampleDocsResult()
    ensures Display(Some(SearchResponse(Some("docs"), "ignored", Some([Item("", Some("# H\n**b**"), "f.md")]))))
         == [Excerpt([Heading(1, "H"), Paragraph([Inline.Plain(""), Inline.Bold("b"), Inline.Plain("")])]), SourceFile("f.md")]
  {
    ExampleExcerpt();
  }
}
