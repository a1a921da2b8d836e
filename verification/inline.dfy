/** Inline bold markup: a line is cut with `split(/(\*\*[^*]+\*\*)/g)`, which keeps the
    matched delimiters, and every fragment that is a whole `**text**` run becomes bold. */
module Inline {
  import opened Wrappers

  datatype Span = Plain(text: string) | Bold(text: string)

  /** `t` as a whole matches `^\*\*[^*]+\*\*$`. */
  predicate IsBoldRun(t: string) {
    && |t| >= 5
    && t[0] == '*' && t[1] == '*' && t[|t| - 2] == '*' && t[|t| - 1] == '*'
    && forall k :: 2 <= k < |t| - 2 ==> t[k] != '*'
  }

  /** Position of the first `*` at or after `i`, or `|s|` when there is none. */
  function NextStar(s: string, i: nat): (j: nat)
    requires i <= |s|
    ensures i <= j <= |s|
    ensures forall k :: i <= k < j ==> s[k] != '*'
    ensures j < |s| ==> s[j] == '*'
    decreases |s| - i
  {
    if i == |s| || s[i] == '*' then i else NextStar(s, i + 1)
  }

  /** The regular expression `\*\*[^*]+\*\*` tried at exactly position `q` of `s`:
      the end of the match, if there is one. The greedy `[^*]+` stops at the first `*`,
      and backtracking cannot help because the character after a shorter run is not `*`. */
  function MatchAt(s: string, q: nat): (m: Option<nat>)
    requires q <= |s|
    ensures m.Some? ==> q + 5 <= m.value <= |s| && IsBoldRun(s[q..m.value])
  {
    if q + 2 < |s| && s[q] == '*' && s[q + 1] == '*' && s[q + 2] != '*' then
      var j := NextStar(s, q + 2);
      if j + 1 < |s| && s[j + 1] == '*' then Some(j + 2) else None
    else None
  }

  /** The matcher misses nothing: every bold run starting at `q` is the match found there. */
  lemma MatchAtComplete(s: string, q: nat, e: nat)
    requires q <= e <= |s|
    requires IsBoldRun(s[q..e])
    ensures MatchAt(s, q) == Some(e)
  {
    var t := s[q..e];
    assert s[q] == t[0] && s[q + 1] == t[1] && s[q + 2] == t[2];
    var j := NextStar(s, q + 2);
    assert s[e - 2] == t[|t| - 2];
    assert forall k :: q + 2 <= k < e - 2 ==> s[k] == t[k - q];
    assert j == e - 2;
    assert s[e - 1] == t[|t| - 1];
  }

  // ---------------------------------------------------------------------------
  // split with a capturing separator
  // ---------------------------------------------------------------------------

  /** The fragments `split` produces from the scan position `q` on, the pending fragment
      having started at `p`: where the separator matches, the text before it and the
      match itself are emitted and the scan resumes after the match; elsewhere the scan
      advances by one character; at the end the pending fragment is emitted. */
  function Fragments(s: string, p: nat, q: nat): (parts: seq<string>)
    requires p <= q <= |s|
    ensures |parts| % 2 == 1
    decreases |s| - q
  {
    if q == |s| then [s[p..]]
    else
      match MatchAt(s, q)
      case None => Fragments(s, p, q + 1)
      case Some(e) => [s[p..q], s[q..e]] + Fragments(s, e, e)
  }

  /** `line.split(/(\*\*[^*]+\*\*)/g)`. */
  function SplitBold(line: string): seq<string> {
    Fragments(line, 0, 0)
  }

  function Concat(parts: seq<string>): string {
    if |parts| == 0 then "" else parts[0] + Concat(parts[1..])
  }

  lemma ConcatPair(a: string, b: string, rest: seq<string>)
    ensures Concat([a, b] + rest) == a + (b + Concat(rest))
  {
    var parts := [a, b] + rest;
    assert parts[1..] == [b] + rest;
    assert ([b] + rest)[1..] == rest;
  }

  lemma {:induction false} FragmentsConcat(s: string, p: nat, q: nat)
    requires p <= q <= |s|
    ensures Concat(Fragments(s, p, q)) == s[p..]
    decreases |s| - q
  {
    if q == |s| {
      assert [s[p..]][1..] == [];
    } else {
      match MatchAt(s, q)
      case None =>
        FragmentsConcat(s, p, q + 1);
      case Some(e) =>
        FragmentsConcat(s, e, e);
        ConcatAfterMatch(s, p, q, e);
    }
  }

  lemma ConcatAfterMatch(s: string, p: nat, q: nat, e: nat)
    requires p <= q < e <= |s|
    requires MatchAt(s, q) == Some(e)
    requires Concat(Fragments(s, e, e)) == s[e..]
    ensures Concat(Fragments(s, p, q)) == s[p..]
  {
    assert Fragments(s, p, q) == [s[p..q], s[q..e]] + Fragments(s, e, e);
    ConcatPair(s[p..q], s[q..e], Fragments(s, e, e));
    assert s[p..] == s[p..q] + (s[q..e] + s[e..]);
  }

  /** The matcher at position `d + k` of `s` and at position `k` of `s[d..]` agree on
      whether a bold run starts there: a run depends only on the text from its start. */
  lemma MatchAtShift(s: string, d: nat, k: nat)
    requires d + k <= |s|
    ensures MatchAt(s[d..], k).None? <==> MatchAt(s, d + k).None?
  {
    if MatchAt(s[d..], k).Some? {
      MatchFromSuffix(s, d, k);
    }
    if MatchAt(s, d + k).Some? {
      MatchInSuffix(s, d, k);
    }
  }

  lemma MatchFromSuffix(s: string, d: nat, k: nat)
    requires d + k <= |s|
    requires MatchAt(s[d..], k).Some?
    ensures MatchAt(s, d + k).Some?
  {
    var u := s[d..];
    var e := MatchAt(u, k).value;
    assert u[k..e] == s[d + k..d + e];
    MatchAtComplete(s, d + k, d + e);
  }

  lemma MatchInSuffix(s: string, d: nat, k: nat)
    requires d + k <= |s|
    requires MatchAt(s, d + k).Some?
    ensures MatchAt(s[d..], k).Some?
  {
    var u := s[d..];
    var e := MatchAt(s, d + k).value;
    assert s[d + k..e] == u[k..e - d];
    MatchAtComplete(u, k, e - d);
  }

  /** No match of the bold pattern starts inside `t` when `t` is followed by `rest`. */
  predicate NoMatchStartsIn(t: string, rest: string) {
    forall k :: 0 <= k < |t| ==> MatchAt(t + rest, k).None?
  }

  /** Where the scan found no match, the text scanned holds no start of a bold run. */
  lemma NoMatchInGap(s: string, p: nat, q: nat)
    requires p <= q <= |s|
    requires forall k :: p <= k < q ==> MatchAt(s, k).None?
    ensures NoMatchStartsIn(s[p..q], s[q..])
  {
    assert s[p..q] + s[q..] == s[p..];
    forall k | 0 <= k < q - p ensures MatchAt(s[p..], k).None? {
      MatchAtShift(s, p, k);
    }
  }

  /** Fragment `i` is a bold run at an odd position and text in which no match starts at
      an even one. */
  ghost predicate PartFits(parts: seq<string>, i: int)
    requires 0 <= i < |parts|
  {
    if i % 2 == 1 then IsBoldRun(parts[i]) else NoMatchStartsIn(parts[i], Concat(parts[i + 1..]))
  }

  ghost predicate Alternates(parts: seq<string>) {
    forall i :: 0 <= i < |parts| ==> PartFits(parts, i)
  }

  /** The first two fragments and the shape of the rest give the shape of the whole. */
  lemma AlternatesCons(a: string, b: string, rest: seq<string>)
    requires NoMatchStartsIn(a, b + Concat(rest))
    requires IsBoldRun(b)
    requires Alternates(rest)
    ensures Alternates([a, b] + rest)
  {
    var parts := [a, b] + rest;
    forall i | 0 <= i < |parts| ensures PartFits(parts, i) {
      if i == 0 {
        assert parts[1..] == [b] + rest;
        assert ([b] + rest)[1..] == rest;
      } else if i >= 2 {
        assert PartFits(rest, i - 2);
        assert parts[i] == rest[i - 2];
        assert parts[i + 1..] == rest[i - 1..];
      }
    }
  }

  /** The fragments alternate between unmatched text and matched bold runs. */
  lemma {:induction false} FragmentsShape(s: string, p: nat, q: nat)
    requires p <= q <= |s|
    requires forall k :: p <= k < q ==> MatchAt(s, k).None?
    ensures Alternates(Fragments(s, p, q))
    decreases |s| - q
  {
    if q == |s| {
      NoMatchInGap(s, p, q);
      assert s[p..q] == s[p..] && s[q..] == "";
      assert Fragments(s, p, q) == [s[p..q]];
    } else {
      match MatchAt(s, q)
      case None =>
        FragmentsShape(s, p, q + 1);
      case Some(e) =>
        FragmentsShape(s, e, e);
        FragmentsConcat(s, e, e);
        NoMatchInGap(s, p, q);
        assert s[q..] == s[q..e] + s[e..];
        AlternatesCons(s[p..q], s[q..e], Fragments(s, e, e));
    }
  }

  // ---------------------------------------------------------------------------
  // spans
  // ---------------------------------------------------------------------------

  /** A fragment that is a whole bold run loses its two asterisks on each side; any other
      fragment is kept as plain text. */
  function ToSpan(part: string): Span {
    if IsBoldRun(part) then Bold(part[2..|part| - 2]) else Plain(part)
  }

  function ToSpans(parts: seq<string>): seq<Span> {
    seq(|parts|, i requires 0 <= i < |parts| => ToSpan(parts[i]))
  }

  /** The spans of a non-heading line, in order. */
  function ParseInline(line: string): seq<Span> {
    ToSpans(SplitBold(line))
  }

  /** The markup a span stands for: plain text verbatim, bold text re-wrapped in `**`. */
  function RenderSpan(span: Span): string {
    match span
    case Plain(t) => t
    case Bold(t) => "**" + t + "**"
  }

  function Render(spans: seq<Span>): string {
    if |spans| == 0 then "" else RenderSpan(spans[0]) + Render(spans[1..])
  }

  lemma RenderToSpan(part: string)
    ensures RenderSpan(ToSpan(part)) == part
  {
    if IsBoldRun(part) {
      assert part == part[..2] + part[2..|part| - 2] + part[|part| - 2..];
      assert part[..2] == "**";
      assert part[|part| - 2..] == "**";
    }
  }

  lemma {:induction false} RenderSuffix(parts: seq<string>, i: nat)
    requires i <= |parts|
    ensures Render(ToSpans(parts)[i..]) == Concat(parts[i..])
    decreases |parts| - i
  {
    var spans := ToSpans(parts);
    if i < |parts| {
      RenderSuffix(parts, i + 1);
      RenderToSpan(parts[i]);
      assert spans[i..][1..] == spans[i + 1..];
      assert parts[i..][1..] == parts[i + 1..];
    } else {
      assert spans[i..] == [];
      assert parts[i..] == [];
    }
  }

  /** Rendering the spans of a line gives back the line exactly. */
  lemma InlineRoundTrip(line: string)
    ensures Render(ParseInline(line)) == line
  {
    var parts := SplitBold(line);
    RenderSuffix(parts, 0);
    FragmentsConcat(line, 0, 0);
    assert parts[0..] == parts;
    assert ParseInline(line)[0..] == ParseInline(line);
  }

  // ---------------------------------------------------------------------------
  // the split, characterised
  // ---------------------------------------------------------------------------

  /** Span `i` fits a leftmost split: odd positions are bold with non-empty, asterisk-free
      text; even positions are plain text inside which no bold run starts. */
  ghost predicate SpanFits(spans: seq<Span>, i: int)
    requires 0 <= i < |spans|
  {
    if i % 2 == 1 then spans[i].Bold? && |spans[i].text| > 0 && '*' !in spans[i].text
    else spans[i].Plain? && NoMatchStartsIn(spans[i].text, Render(spans[i + 1..]))
  }

  /** Plain and bold spans alternate, beginning and ending with plain text, and the split
      always takes the leftmost bold run. */
  ghost predicate IsLeftmostSplit(spans: seq<Span>) {
    && |spans| % 2 == 1
    && forall i :: 0 <= i < |spans| ==> SpanFits(spans, i)
  }

  lemma BoldRunInner(t: string)
    requires IsBoldRun(t)
    ensures |t[2..|t| - 2]| > 0 && '*' !in t[2..|t| - 2]
  {
    var b := t[2..|t| - 2];
    forall k | 0 <= k < |b| ensures b[k] != '*' {
      assert b[k] == t[k + 2];
    }
  }

  /** Plain text in which no match starts is not itself a whole bold run. */
  lemma NoMatchNotBoldRun(t: string, rest: string)
    requires NoMatchStartsIn(t, rest)
    ensures !IsBoldRun(t)
  {
    if IsBoldRun(t) {
      assert (t + rest)[0..|t|] == t;
      MatchAtComplete(t + rest, 0, |t|);
      assert false;
    }
  }

  /** The split the parser makes is a leftmost split of the line. */
  lemma ParseInlineIsLeftmost(line: string)
    ensures IsLeftmostSplit(ParseInline(line))
  {
    var parts := SplitBold(line);
    var spans := ParseInline(line);
    FragmentsShape(line, 0, 0);
    forall i | 0 <= i < |spans| ensures SpanFits(spans, i) {
      assert PartFits(parts, i);
      if i % 2 == 1 {
        BoldRunInner(parts[i]);
      } else {
        NoMatchNotBoldRun(parts[i], Concat(parts[i + 1..]));
        RenderSuffix(parts, i + 1);
      }
    }
  }

  lemma LeftmostSplitTail(spans: seq<Span>)
    requires IsLeftmostSplit(spans)
    requires |spans| >= 3
    ensures IsLeftmostSplit(spans[2..])
  {
    var tail := spans[2..];
    forall i | 0 <= i < |tail| ensures SpanFits(tail, i) {
      assert SpanFits(spans, i + 2);
      assert tail[i] == spans[i + 2];
      assert tail[i + 1..] == spans[i + 3..];
    }
  }

  /** The first span of a leftmost split of `s[p..]` is plain, no match starts in it, and
      it ends at `q`. */
  lemma FirstPlain(s: string, p: nat, spans: seq<Span>) returns (q: nat)
    requires p <= |s|
    requires IsLeftmostSplit(spans)
    requires Render(spans) == s[p..]
    ensures p <= q <= |s| && q - p == |spans[0].text|
    ensures spans[0].Plain?
    ensures s[p..] == spans[0].text + Render(spans[1..])
    ensures s[p..q] == spans[0].text && s[q..] == Render(spans[1..])
    ensures NoMatchStartsIn(spans[0].text, Render(spans[1..]))
  {
    assert SpanFits(spans, 0);
    q := p + |spans[0].text|;
    assert s[p..][..q - p] == s[p..q];
    assert s[p..][q - p..] == s[q..];
  }

  /** Where `s` continues at `q` with `**b**`, `b` non-empty and free of asterisks, the
      matcher finds that run, ending at `e`, and nothing longer. */
  lemma MatchWrapped(s: string, q: nat, b: string, rest: string) returns (e: nat)
    requires q <= |s|
    requires |b| > 0 && '*' !in b
    requires s[q..] == "**" + b + "**" + rest
    ensures q < e <= |s|
    ensures MatchAt(s, q) == Some(e)
    ensures s[q..e] == "**" + b + "**"
    ensures s[e..] == rest
  {
    e := q + |b| + 4;
    assert s[q..e] == s[q..][..|b| + 4];
    assert s[e..] == s[q..][|b| + 4..];
    var w := s[q..e];
    assert w == "**" + b + "**";
    assert forall k :: 2 <= k < |w| - 2 ==> w[k] == b[k - 2];
    MatchAtComplete(s, q, e);
  }

  /** The span of a fragment `**b**` is bold `b`. */
  lemma ToSpanWrapped(w: string, b: string)
    requires IsBoldRun(w)
    requires w == "**" + b + "**"
    ensures ToSpan(w) == Bold(b)
  {
    assert w[2..|w| - 2] == b;
  }

  /** The markup after a leading span: the second span, re-wrapped, then the rest. */
  lemma RenderSecond(spans: seq<Span>)
    requires |spans| > 1 && spans[1].Bold?
    ensures Render(spans[1..]) == "**" + spans[1].text + "**" + Render(spans[2..])
  {
    var r := spans[1..];
    assert r[0] == spans[1] && r[1..] == spans[2..];
  }

  /** After the first plain span of a leftmost split, at `q`, the matcher finds the bold run
      of the second span, ending at `e`. */
  lemma BoldAfterFirstPlain(s: string, q: nat, spans: seq<Span>) returns (e: nat)
    requires q <= |s|
    requires IsLeftmostSplit(spans)
    requires |spans| > 1
    requires Render(spans[1..]) == s[q..]
    ensures q < e <= |s|
    ensures MatchAt(s, q) == Some(e)
    ensures ToSpan(s[q..e]) == spans[1]
    ensures Render(spans[2..]) == s[e..]
  {
    assert SpanFits(spans, 1);
    RenderSecond(spans);
    e := MatchWrapped(s, q, spans[1].text, Render(spans[2..]));
    ToSpanWrapped(s[q..e], spans[1].text);
  }

  /** Prepending a plain and a bold fragment prepends their spans. */
  lemma ToSpansCons(a: string, b: string, rest: seq<string>, spans: seq<Span>)
    requires |spans| >= 2
    requires ToSpan(a) == spans[0] && ToSpan(b) == spans[1]
    requires ToSpans(rest) == spans[2..]
    ensures ToSpans([a, b] + rest) == spans
  {
    var parts := [a, b] + rest;
    assert forall k :: 2 <= k < |parts| ==> parts[k] == rest[k - 2];
  }

  /** Where the matcher finds nothing between `q` and `m`, the scan just moves on to `m`. */
  lemma {:induction false} ScanSkips(s: string, p: nat, q: nat, m: nat)
    requires p <= q <= m <= |s|
    requires forall k :: q <= k < m ==> MatchAt(s, k).None?
    ensures Fragments(s, p, q) == Fragments(s, p, m)
    decreases m - q
  {
    if q < m {
      ScanSkips(s, p, q + 1, m);
    }
  }

  /** Text in which no match starts, found at `p` of `s`, holds no match of `s` either;
      so the scan from `p` crosses it without a cut. */
  lemma ScanPastPlain(s: string, p: nat, m: nat, t: string, rest: string)
    requires p <= m <= |s|
    requires m - p == |t|
    requires s[p..] == t + rest
    requires NoMatchStartsIn(t, rest)
    ensures Fragments(s, p, p) == Fragments(s, p, m)
  {
    forall k | p <= k < m ensures MatchAt(s, k).None? {
      assert MatchAt(t + rest, k - p).None?;
      MatchAtShift(s, p, k - p);
    }
    ScanSkips(s, p, p, m);
  }

  /** A leftmost split of `s[p..]` is exactly what the split produces from `p` on. */
  lemma {:induction false} LeftmostSplitIsFragments(s: string, p: nat, spans: seq<Span>)
    requires p <= |s|
    requires IsLeftmostSplit(spans)
    requires Render(spans) == s[p..]
    ensures ToSpans(Fragments(s, p, p)) == spans
    decreases |s| - p
  {
    var q := FirstPlain(s, p, spans);
    ScanPastPlain(s, p, q, spans[0].text, Render(spans[1..]));
    NoMatchNotBoldRun(spans[0].text, Render(spans[1..]));
    if |spans| == 1 {
      assert spans[1..] == [];
      assert q == |s|;
      assert s[p..q] == s[p..];
      assert Fragments(s, p, q) == [s[p..q]];
    } else {
      var e := BoldAfterFirstPlain(s, q, spans);
      var tail := Fragments(s, e, e);
      assert Fragments(s, p, q) == [s[p..q], s[q..e]] + tail;
      LeftmostSplitTail(spans);
      LeftmostSplitIsFragments(s, e, spans[2..]);
      ToSpansCons(s[p..q], s[q..e], tail, spans);
    }
  }

  /** The leftmost split is unique: any spans that render to the line and form a leftmost
      split are the parser's spans. Together with `ParseInlineIsLeftmost` and
      `InlineRoundTrip` this characterises `ParseInline` by what it produces. */
  lemma LeftmostSplitUnique(line: string, spans: seq<Span>)
    requires Render(spans) == line
    requires IsLeftmostSplit(spans)
    ensures ParseInline(line) == spans
  {
    assert line[0..] == line;
    LeftmostSplitIsFragments(line, 0, spans);
  }
}
