/**
 The install root that the supervisor and the server share: the version pointers, the
 failed markers, the pending update, the last update result and the dependency snapshot.
 */
module Layout {
  import opened Wrappers
  import opened Text

  // ------------------------------------------------------ version strings

  const BOM := '\U{FEFF}'

  predicate IsAlnum(c: char) {
    '0' <= c <= '9' || 'A' <= c <= 'Z' || 'a' <= c <= 'z'
  }

  predicate IsVersionChar(c: char) {
    IsAlnum(c) || c in {'.', '+', '_', '-'}
  }

  predicate IsVersionText(v: string) {
    v != "" && IsAlnum(v[0]) && forall c | c in v :: IsVersionChar(c)
  }

  predicate HasDotDot(v: string) {
    exists i | 0 <= i < |v| - 1 :: v[i] == '.' && v[i + 1] == '.'
  }

  /** A `$` matches at the end of the string and also just before a newline that ends it. */
  predicate DollarAt(v: string, n: nat) {
    n == |v| || (n == |v| - 1 && v[n] == '\n')
  }

  /** `re.match` of an alphanumeric character, any version characters and `$`; and no two dots in a row. */
  predicate IsSafeVersion(v: string) {
    (exists n | 0 < n <= |v| :: IsVersionText(v[..n]) && DollarAt(v, n)) && !HasDotDot(v)
  }

  // ------------------------------------------------------ the files

  /** The update a server left; its `version` is `None` when that is not a string. */
  datatype Pending = Pending(version: Option<string>, timeout: Option<real>)

  datatype Report = Report(ok: bool, version: Option<string>, previous: Option<string>, reason: string)

  /** `pending` is `None` also when the file is unreadable, not an object or an empty one. */
  datatype Disk = Disk(
    current: Option<string>, lastGood: Option<string>, failed: set<string>, pending: Option<Pending>,
    result: Option<Report>, freeze: Option<string>, releases: set<string>)

  function Written(version: string): string {
    Trim(version, IsSpace) + "\n"
  }

  /** A pointer is read without a byte-order mark and without white space around it. */
  function ReadPointer(content: Option<string>): Option<string> {
    if content == None then None
    else
      var text := content.value;
      var v := Trim(if text != "" && text[0] == BOM then text[1..] else text, IsSpace);
      if v == "" then None else Some(v)
  }

  // ------------------------------------------------------ what is proved of them

  predicate Trimmed(v: string) {
    v == "" || (!IsSpace(v[0]) && !IsSpace(v[|v| - 1]))
  }

  lemma {:induction false} TrimIsTrimmed(s: string, drop: char -> bool)
    ensures var t := Trim(s, drop); t == "" || (!drop(t[0]) && !drop(t[|t| - 1]))
    decreases |s|
  {
    if s == "" {
    } else if drop(s[0]) {
      TrimIsTrimmed(s[1..], drop);
    } else if drop(s[|s| - 1]) {
      TrimIsTrimmed(s[..|s| - 1], drop);
    }
  }

  lemma TrimOfTrimmed(v: string)
    requires Trimmed(v)
    ensures Trim(v, IsSpace) == v && Trim(v + "\n", IsSpace) == v
  {
    if v != "" {
      assert (v + "\n")[..|v|] == v;
    }
  }

  lemma ReadsWhatIsLeft(v: string)
    requires Trim(v, IsSpace) == "" || Trim(v, IsSpace)[0] != BOM
    ensures ReadPointer(Some(Written(v))) == if Trim(v, IsSpace) == "" then None else Some(Trim(v, IsSpace))
  {
    var t := Trim(v, IsSpace);
    TrimIsTrimmed(v, IsSpace);
    TrimOfTrimmed(t);
    hide Trim, IsSpace;
    assert Written(v)[0] == if t == "" then '\n' else t[0];
  }

  /** What is read after a byte-order mark is shorter than what was written. */
  lemma LosesItsMark(v: string)
    requires Trim(v, IsSpace) != "" && Trim(v, IsSpace)[0] == BOM
    ensures ReadPointer(Some(Written(v))) != Some(v)
  {
    var t := Trim(v, IsSpace);
    TrimIsShorter(v, IsSpace);
    TrimEnds(t[1..], IsSpace);
    assert (t + "\n")[1..] == t[1..] + "\n";
    hide Trim, IsSpace;
    assert Written(v)[0] == BOM;
  }

  /** A version read back from the pointer it was written to is the same one exactly when it had nothing to lose. */
  lemma PointerRoundTrip(v: string)
    ensures ReadPointer(Some(Written(v))) == Some(v) <==> v != "" && Trimmed(v) && v[0] != BOM
  {
    var t := Trim(v, IsSpace);
    if t == "" || t[0] != BOM {
      ReadsWhatIsLeft(v);
    } else {
      LosesItsMark(v);
    }
    TrimIsTrimmed(v, IsSpace);
    hide Trim, ReadPointer, IsSpace;
    if Trimmed(v) {
      TrimOfTrimmed(v);
    }
  }

  lemma {:induction false} TrimIsShorter(s: string, drop: char -> bool)
    ensures |Trim(s, drop)| <= |s|
    decreases |s|
  {
    if s == "" {
    } else if drop(s[0]) {
      TrimIsShorter(s[1..], drop);
    } else if drop(s[|s| - 1]) {
      TrimIsShorter(s[..|s| - 1], drop);
    }
  }

  lemma TrimEnds(s: string, drop: char -> bool)
    requires drop('\n')
    ensures |Trim(s + "\n", drop)| <= |s|
  {
    if s == "" || !drop(s[0]) {
      assert (s + "\n")[..|s|] == s;
      TrimIsShorter(s, drop);
    } else {
      TrimIsShorter((s + "\n")[1..], drop);
    }
  }

  /** The byte-order mark that an editor may put before a version does not become part of it. */
  lemma BomIsIgnored(v: string)
    requires v != "" && Trimmed(v)
    ensures ReadPointer(Some([BOM] + v + "\n")) == Some(v)
  {
    assert ([BOM] + v + "\n")[1..] == v + "\n";
    TrimOfTrimmed(v);
  }

  /** The accepted versions are the plain ones and those with one newline behind them. */
  lemma SafeVersions(v: string)
    ensures IsSafeVersion(v) <==>
              (IsVersionText(v) && !HasDotDot(v))
              || (v != "" && v[|v| - 1] == '\n' && IsVersionText(v[..|v| - 1]) && !HasDotDot(v))
  {
    assert v[..|v|] == v;
  }

  /** A safe version names one entry of a directory: no separator, no drive, and not the directory or its parent. */
  lemma SafeVersionsStayInside(v: string)
    requires IsSafeVersion(v)
    ensures v != "" && v != "." && v != ".."
    ensures forall c | c in v :: c != '/' && c != '\\' && c != ':'
  {
    SafeVersions(v);
    var n :| 0 < n <= |v| && IsVersionText(v[..n]) && DollarAt(v, n);
    forall c | c in v
      ensures c != '/' && c != '\\' && c != ':'
    {
      var i :| 0 <= i < |v| && v[i] == c;
      if i < n {
        assert v[..n][i] == c && c in v[..n];
      }
    }
    assert v[..n][0] == v[0];
  }

  /** A safe version comes back from its pointer unless it ends in a newline. */
  lemma SafeVersionRoundTrip(v: string)
    requires IsSafeVersion(v)
    ensures ReadPointer(Some(Written(v))) == Some(v) <==> v[|v| - 1] != '\n'
  {
    SafeVersions(v);
    PointerRoundTrip(v);
    assert IsVersionText(v) ==> v[|v| - 1] in v && v[0] in v;
    if !IsVersionText(v) {
      assert v[..|v| - 1][0] == v[0];
    }
  }
}
