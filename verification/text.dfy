/** Character classes and the string primitives the page relies on:
    the regular-expression classes `\s` and `\d`, `String.prototype.split("\n")`
    and `String.prototype.trim`. */
module Text {

  /** The single code points of ECMAScript `\s`: tab, line feed, vertical tab, form feed,
      carriage return, space, no-break space, ogham space mark, line separator, paragraph
      separator, narrow no-break space, medium mathematical space, ideographic space and the
      byte order mark. */
  const WhitespaceSingles: set<char> := {
    '\t', '\n', '\U{000B}', '\U{000C}', '\r', ' ', '\U{00A0}', '\U{1680}',
    '\U{2028}', '\U{2029}', '\U{202F}', '\U{205F}', '\U{3000}', '\U{FEFF}'
  }

  /** ECMAScript `\s`: the WhiteSpace and LineTerminator code points, which are the singles
      above and the range U+2000 to U+200A. `trim` strips the same set. */
  predicate IsWhitespace(c: char) {
    c in WhitespaceSingles || '\U{2000}' <= c <= '\U{200A}'
  }

  /** ECMAScript `\d`: ASCII digits only. */
  predicate IsDigit(c: char) {
    '0' <= c <= '9'
  }

  predicate AllWhitespace(s: string) {
    forall i :: 0 <= i < |s| ==> IsWhitespace(s[i])
  }

  predicate AllDigits(s: string) {
    forall i :: 0 <= i < |s| ==> IsDigit(s[i])
  }

  /** Number of occurrences of `c` in `s`. */
  function Occurrences(c: char, s: string): nat {
    if |s| == 0 then 0 else (if s[0] == c then 1 else 0) + Occurrences(c, s[1..])
  }

  // ---------------------------------------------------------------------------
  // split("\n")
  // ---------------------------------------------------------------------------

  /** `s.split("\n")`: the pieces between line feeds, in order; `""` gives `[""]`. */
  function SplitLines(s: string): (lines: seq<string>)
    ensures |lines| == Occurrences('\n', s) + 1
    ensures forall i :: 0 <= i < |lines| ==> '\n' !in lines[i]
  {
    if |s| == 0 then [""]
    else
      var rest := SplitLines(s[1..]);
      if s[0] == '\n' then [""] + rest
      else [[s[0]] + rest[0]] + rest[1..]
  }

  /** `lines.join("\n")`. */
  function JoinLines(lines: seq<string>): string
    requires |lines| > 0
  {
    if |lines| == 1 then lines[0] else lines[0] + "\n" + JoinLines(lines[1..])
  }

  /** Splitting loses nothing: joining the pieces with line feeds gives back the text. */
  lemma {:induction false} JoinSplitLines(s: string)
    ensures JoinLines(SplitLines(s)) == s
  {
    if |s| > 0 {
      JoinSplitLines(s[1..]);
      var rest := SplitLines(s[1..]);
      if s[0] == '\n' {
        assert SplitLines(s) == [""] + rest;
        assert s == [s[0]] + s[1..];
      } else if |rest| == 1 {
        assert s == [s[0]] + s[1..];
      } else {
        var lines := SplitLines(s);
        assert lines[1..] == rest[1..];
        assert JoinLines(rest) == rest[0] + "\n" + JoinLines(rest[1..]);
        assert s == [s[0]] + s[1..];
      }
    }
  }

  /** A line-feed-free text is one piece. */
  lemma {:induction false} SplitSingleLine(s: string)
    requires '\n' !in s
    ensures SplitLines(s) == [s]
  {
    if |s| > 0 {
      assert '\n' !in s[1..] by {
        forall k | 0 <= k < |s[1..]| ensures s[1..][k] != '\n' {
          assert s[1..][k] == s[k + 1];
        }
      }
      SplitSingleLine(s[1..]);
      assert s == [s[0]] + s[1..];
    }
  }

  /** Splitting `a + "\n" + b` with a line-feed-free `a` yields `a` and then the pieces of `b`. */
  lemma {:induction false} SplitAfterFirstLine(a: string, b: string)
    requires '\n' !in a
    ensures SplitLines(a + "\n" + b) == [a] + SplitLines(b)
  {
    if |a| == 0 {
      assert a + "\n" + b == "\n" + b;
      assert ("\n" + b)[1..] == b;
    } else {
      var a' := a[1..];
      assert '\n' !in a' by {
        forall k | 0 <= k < |a'| ensures a'[k] != '\n' {
          assert a'[k] == a[k + 1];
        }
      }
      SplitAfterFirstLine(a', b);
      assert (a + "\n" + b)[1..] == a' + "\n" + b;
      assert [a[0]] + a' == a;
    }
  }

  /** Joining line-feed-free pieces and splitting again gives back the pieces. */
  lemma {:induction false} SplitJoinLines(lines: seq<string>)
    requires |lines| > 0
    requires forall i :: 0 <= i < |lines| ==> '\n' !in lines[i]
    ensures SplitLines(JoinLines(lines)) == lines
  {
    if |lines| == 1 {
      SplitSingleLine(lines[0]);
    } else {
      SplitJoinLines(lines[1..]);
      SplitAfterFirstLine(lines[0], JoinLines(lines[1..]));
      assert lines == [lines[0]] + lines[1..];
    }
  }

  // ---------------------------------------------------------------------------
  // trim()
  // ---------------------------------------------------------------------------

  /** Length of the longest all-whitespace prefix of `s`. */
  function LeadingWhitespace(s: string): (n: nat)
    ensures n <= |s|
    ensures AllWhitespace(s[..n])
    ensures n < |s| ==> !IsWhitespace(s[n])
  {
    if |s| == 0 || !IsWhitespace(s[0]) then 0
    else
      var n := 1 + LeadingWhitespace(s[1..]);
      assert forall i :: 1 <= i < n ==> s[i] == s[1..][i - 1];
      n
  }

  /** Length of the longest all-whitespace suffix of `s`. */
  function TrailingWhitespace(s: string): (n: nat)
    ensures n <= |s|
    ensures AllWhitespace(s[|s| - n..])
    ensures n < |s| ==> !IsWhitespace(s[|s| - n - 1])
  {
    if |s| == 0 || !IsWhitespace(s[|s| - 1]) then 0
    else
      var init := s[..|s| - 1];
      var n := 1 + TrailingWhitespace(init);
      assert forall i :: |s| - n <= i < |s| - 1 ==> s[i] == init[i];
      n
  }

  lemma Decompose(s: string, i: nat, j: nat)
    requires i <= j <= |s|
    ensures s == s[..i] + s[i..j] + s[j..]
  {
  }

  /** `s.trim()`: `s` without its leading and trailing whitespace. */
  function Trim(s: string): (t: string)
    ensures t == [] <==> AllWhitespace(s)
    ensures t != [] ==> !IsWhitespace(t[0]) && !IsWhitespace(t[|t| - 1])
    ensures t != [] ==> s == s[..LeadingWhitespace(s)] + t + s[|s| - TrailingWhitespace(s)..]
  {
    var lead := LeadingWhitespace(s);
    if lead == |s| then
      assert s[..lead] == s;
      []
    else
      var trail := TrailingWhitespace(s);
      assert forall m :: |s| - trail <= m < |s| ==> s[m] == s[|s| - trail..][m - (|s| - trail)];
      assert trail < |s| - lead;
      var t := s[lead..|s| - trail];
      Decompose(s, lead, |s| - trail);
      assert t[0] == s[lead] && t[|t| - 1] == s[|s| - trail - 1];
      t
  }
}
