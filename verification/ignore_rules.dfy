/**
 What a line of a Dockerignore file means: which lines are rules, of which sense, with
 which pattern, whatever white space and slashes surround it.
 */
module IgnoreRules {
  import opened Text
  import opened Wrappers
  import opened Glob

  predicate AllSpace(s: string) {
    forall c | c in s :: IsSpace(c)
  }

  predicate AllSlashes(s: string) {
    forall c | c in s :: c == '/'
  }

  /** Neither end is white space. */
  predicate Stripped(line: string) {
    line == "" || (!IsSpace(line[0]) && !IsSpace(line[|line| - 1]))
  }

  predicate SlashFreeEnds(pattern: string) {
    pattern == "" || (pattern[0] != '/' && pattern[|pattern| - 1] != '/')
  }

  // ------------------------------------------------------ stripping

  lemma {:induction false} TrimPadding(before: string, text: string, after: string, drop: char -> bool)
    requires forall c | c in before + after :: drop(c)
    requires text == "" || (!drop(text[0]) && !drop(text[|text| - 1]))
    ensures Trim(before + text + after, drop) == text
    decreases |before| + |after|
  {
    var all := before + text + after;
    if before != "" {
      assert all[0] == before[0] && before[0] in before + after;
      assert all[1..] == before[1..] + text + after;
      TrimPadding(before[1..], text, after, drop);
    } else if after != "" {
      assert all[|all| - 1] == after[|after| - 1] && after[|after| - 1] in before + after;
      assert all[..|all| - 1] == before + text + after[..|after| - 1];
      TrimPadding(before, text, after[..|after| - 1], drop);
      if drop(all[0]) {
        TrimEitherEnd(all, drop);
      }
    } else {
      assert all == text;
    }
  }

  /** It does not matter from which end one strips first. */
  lemma {:induction false} TrimEitherEnd(s: string, drop: char -> bool)
    requires s != "" && drop(s[|s| - 1])
    ensures Trim(s, drop) == Trim(s[..|s| - 1], drop)
    decreases |s|
  {
    if drop(s[0]) && |s| > 1 {
      TrimEitherEnd(s[1..], drop);
      assert s[1..][..|s| - 2] == s[..|s| - 1][1..];
    }
  }

  lemma StripsSpace(before: string, line: string, after: string)
    requires AllSpace(before) && AllSpace(after) && Stripped(line)
    ensures Trim(before + line + after, IsSpace) == line
  {
    TrimPadding(before, line, after, IsSpace);
  }

  lemma StripsSlashes(before: string, pattern: string, after: string)
    requires AllSlashes(before) && AllSlashes(after) && SlashFreeEnds(pattern)
    ensures Trim(before + pattern + after, c => c == '/') == pattern
  {
    TrimPadding(before, pattern, after, c => c == '/');
  }

  // ------------------------------------------------------ what a line is

  /** The line says nothing: it is blank, a comment, or the root itself. */
  predicate SaysNothing(line: string) {
    line == "" || line[0] == '#' || line == "."
  }

  /** The pattern matches the path or one of its ancestors, segment by segment. */
  predicate Covers(pattern: string, parts: seq<string>) {
    exists n | 1 <= n <= |parts| :: PathMatches(Split(pattern), parts[..n])
  }

  lemma ParsesNothing(before: string, line: string, after: string)
    requires AllSpace(before) && AllSpace(after) && Stripped(line) && SaysNothing(line)
    ensures ParseRule(before + line + after) == None
  {
    StripsSpace(before, line, after);
  }

  lemma ParsesPlain(before: string, left: string, pattern: string, right: string, after: string)
    requires AllSpace(before) && AllSpace(after) && AllSlashes(left) && AllSlashes(right) && SlashFreeEnds(pattern)
    requires var line := left + pattern + right; Stripped(line) && !SaysNothing(line) && line[0] != '!'
    ensures ParseRule(before + (left + pattern + right) + after) == Some(Rule(false, pattern))
  {
    StripsSpace(before, left + pattern + right, after);
    StripsSlashes(left, pattern, right);
  }

  lemma ParsesNegated(before: string, left: string, pattern: string, right: string, after: string)
    requires AllSpace(before) && AllSpace(after) && AllSlashes(left) && AllSlashes(right) && SlashFreeEnds(pattern)
    requires Stripped("!" + (left + pattern + right))
    ensures ParseRule(before + ("!" + (left + pattern + right)) + after) == Some(Rule(true, pattern))
  {
    var line := "!" + (left + pattern + right);
    StripsSpace(before, line, after);
    StripsSlashes(left, pattern, right);
    assert line[1..] == left + pattern + right && line[0] == '!';
    assert line != ".";
  }

  lemma HitsAsCovered(raw: string, negate: bool, pattern: string, parts: seq<string>)
    requires ParseRule(raw) == Some(Rule(negate, pattern)) && Accepted(pattern, true) && SlashFree(parts)
    ensures (Hits(raw, parts) <==> Covers(pattern, parts)) && (Negates(raw) <==> negate) && !RuleIsUnsupported(raw)
  {
    hide ParseRule, Hits, Accepted, PathMatches, Split;
    HitsBySegments(raw, parts);
    forall i | 0 <= i < |parts|
      ensures Ancestor(parts, i) == parts[..i + 1]
    {
    }
    if Covers(pattern, parts) {
      var n :| 1 <= n <= |parts| && PathMatches(Split(pattern), parts[..n]);
      assert Ancestor(parts, n - 1) == parts[..n];
    }
  }

  // ------------------------------------------------------ main results

  /** Without rules nothing is ignored. */
  lemma NoRules(parts: seq<string>)
    ensures !IgnoredBy(parts, [])
  {
  }

  lemma {:induction false} InsertedWithoutHit(parts: seq<string>, above: seq<string>, raw: string, below: seq<string>)
    requires !Hits(raw, parts)
    ensures IgnoredBy(parts, above + [raw] + below) <==> IgnoredBy(parts, above + below)
    decreases |below|
  {
    hide Hits, Negates, IgnoredBy;
    if below == [] {
      assert above + [raw] + below == above + [raw] && above + below == above;
      SkippedRule(parts, above, raw);
    } else {
      var init, last := below[..|below| - 1], below[|below| - 1];
      assert below == init + [last];
      assert above + [raw] + below == (above + [raw] + init) + [last];
      assert above + below == (above + init) + [last];
      InsertedWithoutHit(parts, above, raw, init);
      if Hits(last, parts) {
        LastRuleDecides(parts, above + [raw] + init, last);
        LastRuleDecides(parts, above + init, last);
      } else {
        SkippedRule(parts, above + [raw] + init, last);
        SkippedRule(parts, above + init, last);
      }
    }
  }

  /** A blank line, a comment or a `.`, anywhere in the file and however padded, changes no answer and is no error. */
  lemma CommentsChangeNothing(
    parts: seq<string>, above: seq<string>, before: string, line: string, after: string, below: seq<string>)
    requires AllSpace(before) && AllSpace(after) && Stripped(line) && SaysNothing(line)
    ensures var raw := before + line + after;
            && (IgnoredBy(parts, above + [raw] + below) <==> IgnoredBy(parts, above + below))
            && !RuleIsUnsupported(raw)
  {
    ParsesNothing(before, line, after);
    InsertedWithoutHit(parts, above, before + line + after, below);
    hide IgnoredBy;
  }

  /** A plain line adds to what is ignored exactly what its pattern, without slashes at its ends, covers. */
  lemma PlainRuleIgnores(
    parts: seq<string>, patterns: seq<string>,
    before: string, left: string, pattern: string, right: string, after: string)
    requires AllSpace(before) && AllSpace(after) && AllSlashes(left) && AllSlashes(right) && SlashFreeEnds(pattern)
    requires var line := left + pattern + right; Stripped(line) && !SaysNothing(line) && line[0] != '!'
    requires Accepted(pattern, true) && SlashFree(parts)
    ensures IgnoredBy(parts, patterns + [before + (left + pattern + right) + after])
       <==> Covers(pattern, parts) || IgnoredBy(parts, patterns)
  {
    var raw := before + (left + pattern + right) + after;
    ParsesPlain(before, left, pattern, right, after);
    RuleDecides(parts, patterns, raw, false, pattern);
  }

  /** A `!` line takes from it exactly what its pattern covers. */
  lemma NegatedRuleSpares(
    parts: seq<string>, patterns: seq<string>,
    before: string, left: string, pattern: string, right: string, after: string)
    requires AllSpace(before) && AllSpace(after) && AllSlashes(left) && AllSlashes(right) && SlashFreeEnds(pattern)
    requires Stripped("!" + (left + pattern + right))
    requires Accepted(pattern, true) && SlashFree(parts)
    ensures IgnoredBy(parts, patterns + [before + ("!" + (left + pattern + right)) + after])
       <==> !Covers(pattern, parts) && IgnoredBy(parts, patterns)
  {
    var raw := before + ("!" + (left + pattern + right)) + after;
    ParsesNegated(before, left, pattern, right, after);
    RuleDecides(parts, patterns, raw, true, pattern);
  }

  lemma RuleDecides(parts: seq<string>, patterns: seq<string>, raw: string, negate: bool, pattern: string)
    requires ParseRule(raw) == Some(Rule(negate, pattern)) && Accepted(pattern, true) && SlashFree(parts)
    ensures IgnoredBy(parts, patterns + [raw])
       <==> if Covers(pattern, parts) then !negate else IgnoredBy(parts, patterns)
  {
    HitsAsCovered(raw, negate, pattern, parts);
    hide ParseRule, Hits, Negates, Accepted, Covers, IgnoredBy;
    if Covers(pattern, parts) {
      LastRuleDecides(parts, patterns, raw);
    } else {
      SkippedRule(parts, patterns, raw);
    }
  }

  // ------------------------------------------------------ which patterns are supported

  predicate DoubleStarAt(segment: string, i: nat)
    requires i + 1 < |segment|
  {
    segment[i] == '*' && segment[i + 1] == '*'
  }

  /** A segment that a pattern may have: a proper name without brackets and backslashes, and `**` only on its own. */
  predicate Supported(segment: string) {
    && segment != "" && segment != "." && segment != ".."
    && '\\' !in segment && '[' !in segment && ']' !in segment
    && (segment == "**" || forall i | 0 <= i < |segment| - 1 :: !DoubleStarAt(segment, i))
  }

  lemma {:induction false} CharactersOfJoin(segments: seq<string>, c: char)
    requires c != '/'
    ensures c in Join(segments) <==> exists k | 0 <= k < |segments| :: c in segments[k]
    decreases |segments|
  {
    if |segments| > 1 {
      CharactersOfJoin(segments[1..], c);
      if k :| 0 <= k < |segments| && c in segments[k] {
        assert k > 0 ==> segments[1..][k - 1] == segments[k];
      }
      if k :| 0 <= k < |segments[1..]| && c in segments[1..][k] {
        assert segments[k + 1] == segments[1..][k];
      }
    }
  }

  predicate Bracketed(s: string) {
    '\\' in s || '[' in s || ']' in s
  }

  predicate NotAName(segment: string) {
    segment in {".", "..", ""}
  }

  lemma SupportedInOtherWords(segment: string)
    ensures Supported(segment)
       <==> !NotAName(segment) && !Bracketed(segment) && !UnsupportedRecursion(segment, true)
  {
    if i :| 0 <= i < |segment| - 1 && segment[i] == '*' && segment[i + 1] == '*' {
      assert DoubleStarAt(segment, i);
    }
  }

  lemma BracketedSomewhere(segments: seq<string>)
    ensures Bracketed(Join(segments)) <==> exists k | 0 <= k < |segments| :: Bracketed(segments[k])
  {
    if Bracketed(Join(segments)) {
      var c :| c in Join(segments) && (c == '\\' || c == '[' || c == ']');
      CharactersOfJoin(segments, c);
      hide Join;
      var k :| 0 <= k < |segments| && c in segments[k];
      assert Bracketed(segments[k]);
    }
    if k :| 0 <= k < |segments| && Bracketed(segments[k]) {
      var c :| c in segments[k] && (c == '\\' || c == '[' || c == ']');
      CharactersOfJoin(segments, c);
    }
  }

  lemma HasNames(pattern: string, segments: seq<string>)
    requires segments == Split(pattern) && !Unsupported(pattern)
    ensures !Bracketed(pattern) && forall k | 0 <= k < |segments| :: !NotAName(segments[k])
  {
    hide Split;
    forall c | c in pattern
      ensures c != '\\' && c != '[' && c != ']'
    {
      var i :| 0 <= i < |pattern| && pattern[i] == c;
    }
    forall k | 0 <= k < |segments|
      ensures !NotAName(segments[k])
    {
      assert Split(pattern)[k] !in {".", "..", ""};
    }
  }

  lemma NamesAreSupported(pattern: string, segments: seq<string>)
    requires segments == Split(pattern) && !Bracketed(pattern)
    requires forall k | 0 <= k < |segments| :: !NotAName(segments[k])
    ensures !Unsupported(pattern)
  {
    hide Split;
    forall i | 0 <= i < |pattern|
      ensures pattern[i] != '\\' && pattern[i] != '[' && pattern[i] != ']'
    {
      assert pattern[i] in pattern;
    }
    forall k | 0 <= k < |Split(pattern)|
      ensures Split(pattern)[k] !in {".", "..", ""}
    {
      assert !NotAName(segments[k]);
    }
  }

  /** A pattern is supported exactly when each of its parts between slashes is. */
  lemma AcceptedSegmentwise(pattern: string, segments: seq<string>)
    requires segments == Split(pattern)
    ensures Accepted(pattern, true) <==> forall k | 0 <= k < |segments| :: Supported(segments[k])
  {
    hide Split, Unsupported, UnsupportedRecursion, Bracketed, NotAName, Supported;
    BracketedSomewhere(segments);
    forall k | 0 <= k < |segments|
      ensures Supported(segments[k])
         <==> !NotAName(segments[k]) && !Bracketed(segments[k]) && !UnsupportedRecursion(segments[k], true)
    {
      SupportedInOtherWords(segments[k]);
    }
    if Accepted(pattern, true) {
      HasNames(pattern, segments);
      forall k | 0 <= k < |segments|
        ensures Supported(segments[k])
      {
        assert !UnsupportedRecursion(Split(pattern)[k], true);
      }
    }
    if forall k | 0 <= k < |segments| :: Supported(segments[k]) {
      NamesAreSupported(pattern, segments);
      forall k | 0 <= k < |Split(pattern)|
        ensures !UnsupportedRecursion(Split(pattern)[k], true)
      {
        assert Supported(segments[k]);
      }
    }
  }

  /** A line is refused exactly when a part of its pattern is not supported. */
  lemma RefusedForItsParts(raw: string, negate: bool, pattern: string, segments: seq<string>)
    requires ParseRule(raw) == Some(Rule(negate, pattern)) && segments == Split(pattern)
    ensures RuleIsUnsupported(raw) <==> exists k :: 0 <= k < |segments| && !Supported(segments[k])
  {
    AcceptedSegmentwise(pattern, segments);
    hide ParseRule, Accepted, Supported, Split;
  }
}
