/**
 The Dockerignore subset of the build-context checker: a pattern of `/`-separated
 parts is compiled to a regular expression, and a path is ignored when the last rule
 that matches it, or one of its ancestors, is not a `!` rule.

 Regular expressions are given by their syntax and the set of strings they match in
 full.  The compiler is proved to preserve meaning: what the expression matches is
 what a matcher working segment by segment accepts.
 */
module Glob {
  import opened Text
  import opened Wrappers

  // ------------------------------------------------------ regular expressions

  /** `Dot` is `.` without the DOTALL flag, `NotSlash` is `[^/]`, `Group` is `(?:...)`. */
  datatype Regex =
    | Lit(c: char)
    | NotSlash
    | Dot
    | Star(r: Regex)
    | Plus(r: Regex)
    | Group(rs: seq<Regex>)

  /** `re.fullmatch` of one regular expression. */
  predicate Matches(r: Regex, s: string)
    decreases r, |s|
  {
    match r
    case Lit(c) => s == [c]
    case NotSlash => |s| == 1 && s[0] != '/'
    case Dot => |s| == 1 && s[0] != '\n'
    case Star(x) => s == [] || exists i | 0 < i <= |s| :: Matches(x, s[..i]) && Matches(r, s[i..])
    case Plus(x) =>
      exists i | 0 <= i <= |s| :: Matches(x, s[..i]) && (i == |s| || (i > 0 && Matches(r, s[i..])))
    case Group(rs) => MatchesAll(rs, s)
  }

  /** `re.fullmatch` of a concatenation. */
  predicate MatchesAll(rs: seq<Regex>, s: string)
    decreases rs, |s|
  {
    if rs == [] then s == []
    else exists i | 0 <= i <= |s| :: Matches(rs[0], s[..i]) && MatchesAll(rs[1..], s[i..])
  }

  // ------------------------------------------------------ paths

  predicate Free(s: string, c: char) {
    forall i | 0 <= i < |s| :: s[i] != c
  }

  predicate SlashFree(parts: seq<string>) {
    forall i | 0 <= i < |parts| :: Free(parts[i], '/')
  }

  function Join(segments: seq<string>): string {
    if segments == [] then ""
    else if |segments| == 1 then segments[0]
    else segments[0] + "/" + Join(segments[1..])
  }

  /** `pattern.split("/")`. */
  function Split(s: string): (parts: seq<string>)
    ensures |parts| > 0 && SlashFree(parts) && Join(parts) == s
  {
    if s == "" then [""]
    else
      var rest := Split(s[1..]);
      if s[0] == '/' then [""] + rest
      else
        assert Join([[s[0]] + rest[0]] + rest[1..]) == [s[0]] + Join(rest);
        [[s[0]] + rest[0]] + rest[1..]
  }

  // ------------------------------------------------------ what a pattern means

  const DOUBLE_STAR := "**"

  /** A plain part against one segment: `*` is any run of characters, `?` any one. */
  predicate PartMatches(part: string, segment: string)
    decreases |part| + |segment|
  {
    if part == "" then segment == ""
    else if part[0] == '*' then
      PartMatches(part[1..], segment) || (segment != "" && PartMatches(part, segment[1..]))
    else
      segment != "" && (part[0] == '?' || part[0] == segment[0]) && PartMatches(part[1..], segment[1..])
  }

  /**
   A pattern against a path, segment by segment.  An inner `**` is any number of
   non-empty segments; a final one is one or more segments without line breaks.
   */
  predicate PathMatches(parts: seq<string>, segments: seq<string>)
    requires parts != [] && segments != []
    decreases |parts| + |segments|
  {
    if |parts| == 1 then
      if parts[0] == DOUBLE_STAR then forall i | 0 <= i < |segments| :: Free(segments[i], '\n')
      else |segments| == 1 && PartMatches(parts[0], segments[0])
    else if parts[0] == DOUBLE_STAR then
      PathMatches(parts[1..], segments)
      || (|segments| > 1 && segments[0] != "" && PathMatches(parts, segments[1..]))
    else
      |segments| > 1 && PartMatches(parts[0], segments[0]) && PathMatches(parts[1..], segments[1..])
  }

  // ------------------------------------------------------ the compiler

  datatype PatternError = UnsupportedPathPattern | UnsupportedRecursivePattern

  predicate HasDoubleStar(part: string) {
    exists i | 0 <= i < |part| - 1 :: part[i] == '*' && part[i + 1] == '*'
  }

  predicate Unsupported(pattern: string) {
    || (exists i | 0 <= i < |pattern| :: pattern[i] == '\\' || pattern[i] == '[' || pattern[i] == ']')
    || (exists i | 0 <= i < |Split(pattern)| :: Split(pattern)[i] in {".", "..", ""})
  }

  predicate UnsupportedRecursion(part: string, recursive: bool) {
    HasDoubleStar(part) && (!recursive || part != DOUBLE_STAR)
  }

  predicate Accepted(pattern: string, recursive: bool) {
    && !Unsupported(pattern)
    && forall i | 0 <= i < |Split(pattern)| :: !UnsupportedRecursion(Split(pattern)[i], recursive)
  }

  function CharExpression(c: char): Regex {
    if c == '*' then Star(NotSlash) else if c == '?' then NotSlash else Lit(c)
  }

  function PartExpression(part: string): seq<Regex> {
    seq(|part|, i requires 0 <= i < |part| => CharExpression(part[i]))
  }

  const SEGMENT := Group([Plus(NotSlash), Lit('/')])
  const WHOLE_SEGMENTS := Star(SEGMENT)

  /** What one part adds to the expression. */
  function Piece(part: string, last: bool): seq<Regex> {
    if HasDoubleStar(part) then [if last then Star(Dot) else WHOLE_SEGMENTS]
    else PartExpression(part) + if last then [] else [Lit('/')]
  }

  function Expression(parts: seq<string>): seq<Regex> {
    if parts == [] then [] else Piece(parts[0], |parts| == 1) + Expression(parts[1..])
  }

  lemma OnePieceMore(parts: seq<string>, index: nat, before: seq<Regex>)
    requires index < |parts|
    ensures before + Expression(parts[index..])
         == before + Piece(parts[index], index == |parts| - 1) + Expression(parts[index + 1..])
  {
    assert parts[index..][1..] == parts[index + 1..];
  }

  /** `path_pattern`. */
  method PathPattern(pattern: string, recursive: bool) returns (r: Result<seq<Regex>, PatternError>)
    ensures r.Ok? <==> Accepted(pattern, recursive)
    ensures r.Ok? ==> r.value == Expression(Split(pattern))
    ensures r.Err? ==> (r.error == UnsupportedPathPattern <==> Unsupported(pattern))
  {
    hide Split, HasDoubleStar, PartExpression;
    if Unsupported(pattern) {
      return Err(UnsupportedPathPattern);
    }
    var parts, expression := Split(pattern), [];
    assert parts[0..] == parts && expression + Expression(parts) == Expression(parts);
    hide Unsupported, Expression;
    for index := 0 to |parts|
      invariant expression + Expression(parts[index..]) == Expression(parts)
      invariant forall i | 0 <= i < index :: !UnsupportedRecursion(parts[i], recursive)
    {
      var part, last := parts[index], index == |parts| - 1;
      ghost var before := expression;
      OnePieceMore(parts, index, before);
      if HasDoubleStar(part) {
        if !recursive || part != DOUBLE_STAR {
          return Err(UnsupportedRecursivePattern);
        }
        expression := expression + [if last then Star(Dot) else WHOLE_SEGMENTS];
      } else {
        expression := expression + PartExpression(part);
        if !last {
          expression := expression + [Lit('/')];
        }
      }
      assert expression == before + Piece(part, last);
    }
    assert expression + Expression(parts[|parts|..]) == expression;
    return Ok(expression);
  }

  // ------------------------------------------------------ the pieces of the expression

  lemma {:induction false} StarOfCharacter(r: Regex, forbidden: char, s: string)
    requires (r == NotSlash && forbidden == '/') || (r == Dot && forbidden == '\n')
    ensures Matches(Star(r), s) <==> Free(s, forbidden)
    decreases |s|
  {
    if s != [] {
      StarOfCharacter(r, forbidden, s[1..]);
      assert s[..1] == [s[0]];
      if Matches(Star(r), s) {
        var i :| 0 < i <= |s| && Matches(r, s[..i]) && Matches(Star(r), s[i..]);
      }
    }
  }

  lemma {:induction false} PlusNotSlash(s: string)
    ensures Matches(Plus(NotSlash), s) <==> s != [] && Free(s, '/')
    decreases |s|
  {
    if s != [] {
      PlusNotSlash(s[1..]);
      assert s[..1] == [s[0]];
      if Matches(Plus(NotSlash), s) {
        var i :| 0 <= i <= |s| && Matches(NotSlash, s[..i]) && (i == |s| || (i > 0 && Matches(Plus(NotSlash), s[i..])));
      }
    }
  }

  lemma SingleExpression(r: Regex, s: string)
    ensures MatchesAll([r], s) <==> Matches(r, s)
  {
    assert [r][1..] == [] && s[..|s|] == s && s[|s|..] == [];
    if MatchesAll([r], s) {
      var i :| 0 <= i <= |s| && Matches(r, s[..i]) && MatchesAll([], s[i..]);
      assert i == |s|;
    }
  }

  /** `[^/]+/` matches a non-empty segment and its slash. */
  lemma OneSegment(s: string)
    ensures Matches(SEGMENT, s) <==> |s| > 1 && s[|s| - 1] == '/' && Free(s[..|s| - 1], '/')
  {
    var rs := [Plus(NotSlash), Lit('/')];
    assert rs[1..] == [Lit('/')];
    assert Matches(SEGMENT, s) <==> MatchesAll(rs, s);
    if Matches(SEGMENT, s) {
      var i :| 0 <= i <= |s| && Matches(rs[0], s[..i]) && MatchesAll(rs[1..], s[i..]);
      SingleExpression(Lit('/'), s[i..]);
      PlusNotSlash(s[..i]);
      assert s[i..] == "/" && s[i..][0] == s[i];
    }
    if |s| > 1 && s[|s| - 1] == '/' && Free(s[..|s| - 1], '/') {
      var i := |s| - 1;
      PlusNotSlash(s[..i]);
      assert s[i..] == "/";
      SingleExpression(Lit('/'), s[i..]);
      assert Matches(rs[0], s[..i]) && MatchesAll(rs[1..], s[i..]);
    }
  }

  // ------------------------------------------------------ concatenation

  lemma {:induction false} SplitsConcatenation(a: seq<Regex>, b: seq<Regex>, s: string) returns (i: nat)
    requires MatchesAll(a + b, s)
    ensures i <= |s| && MatchesAll(a, s[..i]) && MatchesAll(b, s[i..])
    decreases |a|
  {
    if a == [] {
      assert a + b == b && s[0..] == s;
      i := 0;
    } else {
      assert (a + b)[1..] == a[1..] + b;
      var j :| 0 <= j <= |s| && Matches(a[0], s[..j]) && MatchesAll(a[1..] + b, s[j..]);
      var k := SplitsConcatenation(a[1..], b, s[j..]);
      i := j + k;
      assert s[..i][..j] == s[..j] && s[..i][j..] == s[j..][..k] && s[j..][k..] == s[i..];
    }
  }

  lemma {:induction false} JoinsConcatenation(a: seq<Regex>, b: seq<Regex>, s: string, i: nat)
    requires i <= |s| && MatchesAll(a, s[..i]) && MatchesAll(b, s[i..])
    ensures MatchesAll(a + b, s)
    decreases |a|
  {
    if a == [] {
      assert a + b == b && s[0..] == s;
    } else {
      assert (a + b)[1..] == a[1..] + b;
      var j :| 0 <= j <= i && Matches(a[0], s[..i][..j]) && MatchesAll(a[1..], s[..i][j..]);
      assert s[..i][..j] == s[..j] && s[..i][j..] == s[j..][..i - j] && s[i..] == s[j..][i - j..];
      JoinsConcatenation(a[1..], b, s[j..], i - j);
    }
  }

  // ------------------------------------------------------ a plain part

  /** `*` against the rest of a segment: some prefix goes to the star, the remainder to the rest of the part. */
  lemma {:induction false} StarPart(part: string, s: string)
    requires part != "" && part[0] == '*'
    ensures PartMatches(part, s) <==> exists i :: 0 <= i <= |s| && PartMatches(part[1..], s[i..])
    decreases |s|
  {
    assert s[0..] == s;
    if s != "" {
      StarPart(part, s[1..]);
      if i :| 0 <= i <= |s[1..]| && PartMatches(part[1..], s[1..][i..]) {
        assert s[1..][i..] == s[i + 1..];
      }
      if i :| 0 < i <= |s| && PartMatches(part[1..], s[i..]) {
        assert s[1..][i - 1..] == s[i..];
      }
    }
  }

  /** A plain part's expression matches the slash-free strings that the part matches. */
  lemma {:induction false} PartMeaning(part: string, s: string)
    requires Free(part, '/')
    ensures MatchesAll(PartExpression(part), s) <==> Free(s, '/') && PartMatches(part, s)
    decreases |part|
  {
    if part != "" {
      var rs := PartExpression(part);
      assert rs[1..] == PartExpression(part[1..]);
      if part[0] == '*' {
        StarPart(part, s);
        forall i | 0 <= i <= |s|
          ensures Matches(rs[0], s[..i]) <==> Free(s[..i], '/')
          ensures MatchesAll(rs[1..], s[i..]) <==> Free(s[i..], '/') && PartMatches(part[1..], s[i..])
          ensures Free(s, '/') <==> Free(s[..i], '/') && Free(s[i..], '/')
        {
          StarOfCharacter(NotSlash, '/', s[..i]);
          PartMeaning(part[1..], s[i..]);
          assert s == s[..i] + s[i..];
        }
      } else if s != "" {
        PartMeaning(part[1..], s[1..]);
        assert s[..1] == [s[0]];
        if MatchesAll(rs, s) {
          var i :| 0 <= i <= |s| && Matches(rs[0], s[..i]) && MatchesAll(rs[1..], s[i..]);
          assert i == 1;
        }
        if Free(s, '/') && PartMatches(part, s) {
          assert Matches(rs[0], s[..1]) && MatchesAll(rs[1..], s[1..]);
        }
      }
    }
  }

  // ------------------------------------------------------ a whole path

  lemma FreeConcatenation(a: string, b: string, c: char)
    ensures Free(a + b, c) <==> Free(a, c) && Free(b, c)
  {
    assert (a + b)[..|a|] == a && (a + b)[|a|..] == b;
    assert forall i | 0 <= i < |b| :: (a + b)[|a| + i] == b[i];
  }

  lemma {:induction false} JoinIsFree(segments: seq<string>, c: char)
    requires segments != []
    ensures Free(Join(segments), c) <==>
              (c != '/' || |segments| == 1) && forall i | 0 <= i < |segments| :: Free(segments[i], c)
    decreases |segments|
  {
    if |segments| > 1 {
      var head, rest := segments[0], Join(segments[1..]);
      JoinIsFree(segments[1..], c);
      FreeConcatenation(head, "/", c);
      FreeConcatenation(head + "/", rest, c);
      assert "/"[0] == '/';
      assert forall i | 0 < i < |segments| :: segments[i] == segments[1..][i - 1];
    }
  }

  /** The first slash of a joined path ends its first segment. */
  lemma FirstSlash(segments: seq<string>, i: nat)
    requires segments != [] && SlashFree(segments)
    requires i < |Join(segments)| && Free(Join(segments)[..i], '/') && Join(segments)[i] == '/'
    ensures |segments| > 1 && i == |segments[0]|
    ensures Join(segments)[..i] == segments[0] && Join(segments)[i + 1..] == Join(segments[1..])
  {
    var s := Join(segments);
    if |segments| > 1 {
      assert s[|segments[0]|] == '/';
    }
  }

  /** The pieces of an accepted pattern. */
  predicate Compilable(parts: seq<string>) {
    && parts != [] && SlashFree(parts)
    && forall i | 0 <= i < |parts| :: HasDoubleStar(parts[i]) ==> parts[i] == DOUBLE_STAR
  }

  lemma LastPart(part: string, segments: seq<string>)
    requires Compilable([part]) && segments != [] && SlashFree(segments)
    ensures MatchesAll(Expression([part]), Join(segments)) <==> PathMatches([part], segments)
  {
    var s := Join(segments);
    assert Expression([part]) == Piece(part, true);
    if part == DOUBLE_STAR {
      assert HasDoubleStar(part) by { assert part[0] == '*' && part[0 + 1] == '*'; }
      SingleExpression(Star(Dot), s);
      StarOfCharacter(Dot, '\n', s);
      JoinIsFree(segments, '\n');
    } else {
      assert [part][0] == part;
      assert Piece(part, true) == PartExpression(part);
      PartMeaning(part, s);
      JoinIsFree(segments, '/');
    }
  }

  /** A plain part and its slash: the first segment matches the part and the rest matches the rest. */
  lemma InnerPart(part: string, rest: seq<Regex>, segments: seq<string>)
    requires Free(part, '/') && !HasDoubleStar(part) && segments != [] && SlashFree(segments)
    ensures MatchesAll(Piece(part, false) + rest, Join(segments)) <==>
              |segments| > 1 && PartMatches(part, segments[0]) && MatchesAll(rest, Join(segments[1..]))
  {
    var s, slash := Join(segments), [Lit('/')] + rest;
    assert Piece(part, false) + rest == PartExpression(part) + slash;
    assert slash[1..] == rest;
    if MatchesAll(Piece(part, false) + rest, s) {
      var i := SplitsConcatenation(PartExpression(part), slash, s);
      PartMeaning(part, s[..i]);
      var j :| 0 <= j <= |s[i..]| && Matches(Lit('/'), s[i..][..j]) && MatchesAll(rest, s[i..][j..]);
      assert j == 1 && s[i] == s[i..][..j][0] && s[i..][1..] == s[i + 1..];
      FirstSlash(segments, i);
    }
    if |segments| > 1 && PartMatches(part, segments[0]) && MatchesAll(rest, Join(segments[1..])) {
      var i := |segments[0]|;
      assert s[..i] == segments[0] && s[i..][..1] == "/" && s[i..][1..] == Join(segments[1..]);
      PartMeaning(part, s[..i]);
      assert Matches(Lit('/'), s[i..][..1]) && MatchesAll(rest, s[i..][1..]);
      JoinsConcatenation(PartExpression(part), slash, s, i);
    }
  }

  /** An inner `**` that consumes anything consumes the first segment whole. */
  lemma ConsumesSegment(rest: seq<Regex>, segments: seq<string>)
    requires segments != [] && SlashFree(segments)
    requires MatchesAll([WHOLE_SEGMENTS] + rest, Join(segments))
    ensures MatchesAll(rest, Join(segments))
            || (|segments| > 1 && segments[0] != "" && MatchesAll([WHOLE_SEGMENTS] + rest, Join(segments[1..])))
  {
    var s, all := Join(segments), [WHOLE_SEGMENTS] + rest;
    assert all[1..] == rest && s[0..] == s;
    var i :| 0 <= i <= |s| && Matches(WHOLE_SEGMENTS, s[..i]) && MatchesAll(rest, s[i..]);
    if i > 0 {
      var j :| 0 < j <= i && Matches(SEGMENT, s[..i][..j]) && Matches(WHOLE_SEGMENTS, s[..i][j..]);
      hide Matches, MatchesAll, Join;
      assert s[..i][..j] == s[..j] && s[..i][j..] == s[j..][..i - j] && s[i..] == s[j..][i - j..];
      FirstIsConsumed(segments, j);
      StillMatches(rest, s[j..], i - j);
    }
  }

  lemma FirstIsConsumed(segments: seq<string>, j: nat)
    requires segments != [] && SlashFree(segments) && 0 < j <= |Join(segments)| && Matches(SEGMENT, Join(segments)[..j])
    ensures |segments| > 1 && segments[0] != "" && Join(segments)[j..] == Join(segments[1..])
  {
    var s := Join(segments);
    OneSegment(s[..j]);
    assert s[..j][..j - 1] == s[..j - 1];
    FirstSlash(segments, j - 1);
  }

  lemma StillMatches(rest: seq<Regex>, s: string, k: nat)
    requires k <= |s| && Matches(WHOLE_SEGMENTS, s[..k]) && MatchesAll(rest, s[k..])
    ensures MatchesAll([WHOLE_SEGMENTS] + rest, s)
  {
    assert ([WHOLE_SEGMENTS] + rest)[1..] == rest;
  }

  lemma PrependsSegment(rest: seq<Regex>, segments: seq<string>)
    requires |segments| > 1 && segments[0] != "" && SlashFree(segments)
    requires MatchesAll([WHOLE_SEGMENTS] + rest, Join(segments[1..]))
    ensures MatchesAll([WHOLE_SEGMENTS] + rest, Join(segments))
  {
    var s, all := Join(segments), [WHOLE_SEGMENTS] + rest;
    assert all[1..] == rest;
    var j := |segments[0]| + 1;
    assert s[..j] == segments[0] + "/" && s[j..] == Join(segments[1..]);
    OneSegment(s[..j]);
    var k :| 0 <= k <= |s[j..]| && Matches(WHOLE_SEGMENTS, s[j..][..k]) && MatchesAll(rest, s[j..][k..]);
    var i := j + k;
    assert s[..i][..j] == s[..j] && s[..i][j..] == s[j..][..k] && s[i..] == s[j..][k..];
    assert Matches(WHOLE_SEGMENTS, s[..i]);
  }

  /** An inner `**` matches nothing, or one whole segment and then as before. */
  lemma InnerDoubleStar(rest: seq<Regex>, segments: seq<string>)
    requires segments != [] && SlashFree(segments)
    ensures MatchesAll([WHOLE_SEGMENTS] + rest, Join(segments)) <==>
              MatchesAll(rest, Join(segments))
              || (|segments| > 1 && segments[0] != "" && MatchesAll([WHOLE_SEGMENTS] + rest, Join(segments[1..])))
  {
    var s, all := Join(segments), [WHOLE_SEGMENTS] + rest;
    assert all[1..] == rest && s[0..] == s;
    assert Matches(WHOLE_SEGMENTS, s[..0]);
    if MatchesAll(all, s) {
      ConsumesSegment(rest, segments);
    }
    if |segments| > 1 && segments[0] != "" && MatchesAll(all, Join(segments[1..])) {
      PrependsSegment(rest, segments);
    }
  }

  /**
   The compiler preserves meaning: the expression of an accepted pattern matches a
   joined path in full exactly when the pattern matches its segments.
   */
  lemma {:induction false} CompilerPreservesMeaning(parts: seq<string>, segments: seq<string>)
    requires Compilable(parts) && segments != [] && SlashFree(segments)
    ensures MatchesAll(Expression(parts), Join(segments)) <==> PathMatches(parts, segments)
    decreases |parts| + |segments|
  {
    hide Matches, MatchesAll, Join;
    if |parts| == 1 {
      assert parts == [parts[0]];
      LastPart(parts[0], segments);
    } else {
      var rest := Expression(parts[1..]);
      assert SlashFree(parts[1..]);
      assert Compilable(parts[1..]);
      if parts[0] == DOUBLE_STAR {
        assert HasDoubleStar(parts[0]) by { assert parts[0][0] == '*' && parts[0][0 + 1] == '*'; }
        InnerDoubleStar(rest, segments);
        CompilerPreservesMeaning(parts[1..], segments);
        if |segments| > 1 {
          CompilerPreservesMeaning(parts, segments[1..]);
        }
      } else {
        InnerPart(parts[0], rest, segments);
        if |segments| > 1 {
          CompilerPreservesMeaning(parts[1..], segments[1..]);
        }
      }
    }
  }

  lemma AcceptedIsCompilable(pattern: string)
    requires Accepted(pattern, true)
    ensures Compilable(Split(pattern))
  {
    hide Split;
    forall i | 0 <= i < |Split(pattern)| && HasDoubleStar(Split(pattern)[i])
      ensures Split(pattern)[i] == DOUBLE_STAR
    {
      assert !UnsupportedRecursion(Split(pattern)[i], true);
    }
  }

  // ------------------------------------------------------ ignore rules

  /** A line that is neither blank, nor a comment, nor `.`: its sense and its pattern. */
  datatype Rule = Rule(negate: bool, pattern: string)

  function ParseRule(raw: string): Option<Rule> {
    var line := Trim(raw, IsSpace);
    if line == "" || line[0] == '#' || line == "." then None
    else
      var negate := line[0] == '!';
      Some(Rule(negate, Trim(if negate then line[1..] else line, c => c == '/')))
  }

  /** The path itself, or one of its ancestors. */
  function Ancestor(parts: seq<string>, i: nat): seq<string>
    requires i < |parts|
  {
    parts[..i + 1]
  }

  function Candidates(parts: seq<string>): seq<string> {
    seq(|parts|, i requires 0 <= i < |parts| => Join(Ancestor(parts, i)))
  }

  predicate RuleIsUnsupported(raw: string) {
    ParseRule(raw).Some? && !Accepted(ParseRule(raw).value.pattern, true)
  }

  /** The rule matches the path or one of its ancestors. */
  predicate Hits(raw: string, parts: seq<string>) {
    && ParseRule(raw).Some?
    && exists i | 0 <= i < |parts| ::
         MatchesAll(Expression(Split(ParseRule(raw).value.pattern)), Join(Ancestor(parts, i)))
  }

  predicate Negates(raw: string) {
    ParseRule(raw).Some? && ParseRule(raw).value.negate
  }

  /** Some rule hits the path, and the last one that does is not a `!` rule. */
  predicate IgnoredBy(parts: seq<string>, patterns: seq<string>) {
    exists k | 0 <= k < |patterns| ::
      && Hits(patterns[k], parts) && !Negates(patterns[k])
      && forall j | k < j < |patterns| :: Hits(patterns[j], parts) ==> !Negates(patterns[j])
  }

  /** `ignored`, of the path with these parts. */
  method Ignored(parts: seq<string>, patterns: seq<string>) returns (r: Result<bool, PatternError>)
    ensures r.Err? <==> exists k | 0 <= k < |patterns| :: RuleIsUnsupported(patterns[k])
    ensures r.Ok? ==> (r.value <==> IgnoredBy(parts, patterns))
  {
    var candidates, result := Candidates(parts), false;
    hide MatchesAll, Accepted, Split, Expression, Join;
    for k := 0 to |patterns|
      invariant forall j | 0 <= j < k :: !RuleIsUnsupported(patterns[j])
      invariant result <==> IgnoredBy(parts, patterns[..k])
    {
      assert patterns[..k + 1] == patterns[..k] + [patterns[k]];
      var rule := ParseRule(patterns[k]);
      if rule.None? {
        SkippedRule(parts, patterns[..k], patterns[k]);
        continue;
      }
      var matcher := PathPattern(rule.value.pattern, true);
      if matcher.Err? {
        assert RuleIsUnsupported(patterns[k]);
        return Err(matcher.error);
      }
      var hit := exists i | 0 <= i < |candidates| :: MatchesAll(matcher.value, candidates[i]);
      assert hit <==> Hits(patterns[k], parts) by {
        assert forall i | 0 <= i < |parts| :: candidates[i] == Join(Ancestor(parts, i));
      }
      if hit {
        LastRuleDecides(parts, patterns[..k], patterns[k]);
        result := !rule.value.negate;
      } else {
        SkippedRule(parts, patterns[..k], patterns[k]);
      }
    }
    assert patterns[..|patterns|] == patterns;
    return Ok(result);
  }

  lemma LastRuleDecides(parts: seq<string>, patterns: seq<string>, raw: string)
    requires Hits(raw, parts)
    ensures IgnoredBy(parts, patterns + [raw]) <==> !Negates(raw)
  {
    hide Hits, Negates;
    assert (patterns + [raw])[|patterns|] == raw;
  }

  lemma SkippedRule(parts: seq<string>, patterns: seq<string>, raw: string)
    requires !Hits(raw, parts)
    ensures IgnoredBy(parts, patterns + [raw]) <==> IgnoredBy(parts, patterns)
  {
    hide Hits, Negates;
    var all := patterns + [raw];
    if k :| 0 <= k < |patterns| && Hits(patterns[k], parts) && !Negates(patterns[k])
            && forall j | k < j < |patterns| :: Hits(patterns[j], parts) ==> !Negates(patterns[j]) {
      assert Hits(all[k], parts);
      assert forall j | k < j < |all| :: j < |patterns| ==> all[j] == patterns[j];
    }
    if k :| 0 <= k < |all| && Hits(all[k], parts) && !Negates(all[k])
            && forall j | k < j < |all| :: Hits(all[j], parts) ==> !Negates(all[j]) {
      assert Hits(patterns[k], parts);
      assert forall j | k < j < |patterns| :: all[j] == patterns[j];
    }
  }

  /** A rule hits a path exactly when its pattern means one of the path's leading runs of segments. */
  lemma HitsBySegments(raw: string, parts: seq<string>)
    requires SlashFree(parts) && ParseRule(raw).Some? && !RuleIsUnsupported(raw)
    ensures Hits(raw, parts) <==>
              exists i :: 0 <= i < |parts| && PathMatches(Split(ParseRule(raw).value.pattern), Ancestor(parts, i))
  {
    hide ParseRule, MatchesAll, PathMatches, Split, Expression, Join;
    var pattern := ParseRule(raw).value.pattern;
    AcceptedIsCompilable(pattern);
    forall i | 0 <= i < |parts|
      ensures MatchesAll(Expression(Split(pattern)), Join(Ancestor(parts, i)))
              <==> PathMatches(Split(pattern), Ancestor(parts, i))
    {
      assert SlashFree(Ancestor(parts, i));
      CompilerPreservesMeaning(Split(pattern), Ancestor(parts, i));
    }
  }

  /**
   What lies under an ignored directory is ignored, unless a `!` rule that comes after
   the rule that ignores the directory hits it strictly below the directory.
   */
  lemma DescendantsStayIgnored(parts: seq<string>, below: seq<string>, patterns: seq<string>)
    requires IgnoredBy(parts, patterns)
    ensures IgnoredBy(parts + below, patterns)
            || exists k, j :: 0 <= k < j < |patterns|
                              && Hits(patterns[k], parts) && !Negates(patterns[k])
                              && Negates(patterns[j]) && Hits(patterns[j], parts + below) && !Hits(patterns[j], parts)
  {
    var k :| 0 <= k < |patterns| && Hits(patterns[k], parts) && !Negates(patterns[k])
             && forall j | k < j < |patterns| :: Hits(patterns[j], parts) ==> !Negates(patterns[j]);
    HitsAncestor(patterns[k], parts, below);
    var last := LastHit(parts + below, patterns, k);
    if Negates(patterns[last]) {
      assert k < last;
    }
  }

  lemma HitsAncestor(raw: string, parts: seq<string>, below: seq<string>)
    requires Hits(raw, parts)
    ensures Hits(raw, parts + below)
  {
    hide MatchesAll, Expression, Split, Join, ParseRule;
    assert forall i | 0 <= i < |parts| :: Ancestor(parts + below, i) == Ancestor(parts, i);
  }

  lemma LastHit(parts: seq<string>, patterns: seq<string>, k: nat) returns (last: nat)
    requires k < |patterns| && Hits(patterns[k], parts)
    ensures k <= last < |patterns| && Hits(patterns[last], parts)
    ensures forall j | last < j < |patterns| :: !Hits(patterns[j], parts)
  {
    hide Hits;
    last := |patterns| - 1;
    while !Hits(patterns[last], parts)
      invariant k <= last < |patterns|
      invariant forall j | last < j < |patterns| :: !Hits(patterns[j], parts)
      decreases last
    {
      last := last - 1;
    }
  }
}
