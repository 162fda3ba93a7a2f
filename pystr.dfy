/**
 * The handful of Python `str` operations the reply parser relies on, written
 * out over `string` (a sequence of code points): `startswith`, `split(sep)`,
 * `split(sep, 1)`, `sep.join(parts)`, `strip()`, `strip(chars)` and
 * `replace(c, '')`, plus the code-point order that Python's `<` on `str`
 * and SQLite's default text collation both use.
 */
module PyStr {
  import opened Wrappers

  /** The characters for which Python's `str.isspace()` holds; `strip()` without an argument removes these. */
  const Whitespace: set<char> := {
    '\t', '\n', '\U{0B}', '\U{0C}', '\r', '\U{1C}', '\U{1D}', '\U{1E}', '\U{1F}', ' ',
    '\U{85}', '\U{A0}', '\U{1680}',
    '\U{2000}', '\U{2001}', '\U{2002}', '\U{2003}', '\U{2004}', '\U{2005}',
    '\U{2006}', '\U{2007}', '\U{2008}', '\U{2009}', '\U{200A}',
    '\U{2028}', '\U{2029}', '\U{202F}', '\U{205F}', '\U{3000}'
  }

  /** Python's `s.startswith(prefix)`. */
  predicate StartsWith(s: string, prefix: string) {
    |prefix| <= |s| && s[..|prefix|] == prefix
  }

  /** `sep` occurs in `s` starting at position `i`. */
  predicate OccursAt(s: string, sep: string, i: nat) {
    i + |sep| <= |s| && s[i..i + |sep|] == sep
  }

  /** Python's `sep in s`. */
  predicate Contains(s: string, sep: string) {
    exists i: nat :: i <= |s| && OccursAt(s, sep, i)
  }

  /** The position of the first occurrence of `sep` in `s` (Python's `s.find(sep)`, with `None` for -1). */
  function IndexOf(s: string, sep: string): (r: Option<nat>)
    requires |sep| > 0
    ensures r.Some? ==> r.value + |sep| <= |s|
    decreases |s|
  {
    if |s| < |sep| then None
    else if s[..|sep|] == sep then Some(0)
    else
      match IndexOf(s[1..], sep)
      case None => None
      case Some(j) => Some(j + 1)
  }

  /** An occurrence past position 0 of `s` is an occurrence in `s[1..]`, one position earlier. */
  lemma OccursAfterFirst(s: string, sep: string)
    requires |s| > 0
    ensures forall j: nat :: 0 < j ==> (OccursAt(s, sep, j) <==> OccursAt(s[1..], sep, j - 1))
    ensures forall j: nat :: OccursAt(s[1..], sep, j) <==> OccursAt(s, sep, j + 1)
  {
    forall j: nat
      ensures OccursAt(s[1..], sep, j) <==> OccursAt(s, sep, j + 1)
    {
      if j + |sep| < |s| {
        assert s[1..][j..j + |sep|] == s[j + 1..j + 1 + |sep|];
      }
    }
    forall j: nat | 0 < j
      ensures OccursAt(s, sep, j) <==> OccursAt(s[1..], sep, j - 1)
    {
      assert OccursAt(s[1..], sep, j - 1) <==> OccursAt(s, sep, j - 1 + 1);
    }
  }

  /** `IndexOf` finds the first occurrence, and finds none exactly when `sep` does not occur. */
  lemma {:induction false} IndexOfSpec(s: string, sep: string)
    requires |sep| > 0
    ensures var r := IndexOf(s, sep);
            && (r.Some? ==> OccursAt(s, sep, r.value))
            && (r.Some? ==> forall j: nat :: j < r.value ==> !OccursAt(s, sep, j))
            && (r.None? <==> !Contains(s, sep))
    decreases |s|
  {
    if |s| >= |sep| && s[..|sep|] != sep {
      OccursAfterFirst(s, sep);
      IndexOfSpec(s[1..], sep);
      if IndexOf(s[1..], sep).None? {
        assert !OccursAt(s, sep, 0);
      }
    } else if |s| < |sep| {
      assert forall i: nat :: !OccursAt(s, sep, i);
    } else {
      assert OccursAt(s, sep, 0);
    }
  }

  /** Python's `s.split(sep)` for a non-empty separator: the pieces between successive non-overlapping occurrences. */
  function Split(s: string, sep: string): (parts: seq<string>)
    requires |sep| > 0
    ensures |parts| >= 1
    decreases |s|
  {
    match IndexOf(s, sep)
    case None => [s]
    case Some(i) =>
      [s[..i]] + Split(s[i + |sep|..], sep)
  }

  /** Python's `s.split(sep, 1)`: at most one cut, at the first occurrence. */
  function SplitOnce(s: string, sep: string): (parts: seq<string>)
    requires |sep| > 0
    ensures |parts| == 1 || |parts| == 2
  {
    match IndexOf(s, sep)
    case None => [s]
    case Some(i) =>
      [s[..i], s[i + |sep|..]]
  }

  /** Python's `sep.join(parts)`. */
  function Join(parts: seq<string>, sep: string): string
    decreases |parts|
  {
    if |parts| == 0 then ""
    else if |parts| == 1 then parts[0]
    else parts[0] + sep + Join(parts[1..], sep)
  }

  /** Removes the characters of `cs` from the front of `s` (Python's `lstrip(chars)`). */
  function TrimStart(s: string, cs: set<char>): string
    decreases |s|
  {
    if |s| > 0 && s[0] in cs then TrimStart(s[1..], cs) else s
  }

  /** `TrimStart` keeps a suffix, removes only characters of `cs`, and stops at the first character outside `cs`. */
  lemma {:induction false} TrimStartSpec(s: string, cs: set<char>)
    ensures var r := TrimStart(s, cs);
            && |r| <= |s| && r == s[|s| - |r|..]
            && (forall i :: 0 <= i < |s| - |r| ==> s[i] in cs)
            && (r == [] || r[0] !in cs)
    decreases |s|
  {
    if |s| > 0 && s[0] in cs {
      TrimStartSpec(s[1..], cs);
      var r := TrimStart(s, cs);
      assert s[1..][|s| - 1 - |r|..] == s[|s| - |r|..];
      forall i | 0 <= i < |s| - |r|
        ensures s[i] in cs
      {
        if i > 0 {
          assert s[i] == s[1..][i - 1];
        }
      }
    }
  }

  /** Removes the characters of `cs` from the back of `s` (Python's `rstrip(chars)`). */
  function TrimEnd(s: string, cs: set<char>): string
    decreases |s|
  {
    if |s| > 0 && s[|s| - 1] in cs then TrimEnd(s[..|s| - 1], cs) else s
  }

  /** `TrimEnd` keeps a prefix, removes only characters of `cs`, and stops at the last character outside `cs`. */
  lemma {:induction false} TrimEndSpec(s: string, cs: set<char>)
    ensures var r := TrimEnd(s, cs);
            && |r| <= |s| && r == s[..|r|]
            && (forall i :: |r| <= i < |s| ==> s[i] in cs)
            && (r == [] || r[|r| - 1] !in cs)
    decreases |s|
  {
    if |s| > 0 && s[|s| - 1] in cs {
      var init := s[..|s| - 1];
      TrimEndSpec(init, cs);
      var r := TrimEnd(s, cs);
      assert init[..|r|] == s[..|r|];
      forall i | |r| <= i < |s|
        ensures s[i] in cs
      {
        if i < |s| - 1 {
          assert s[i] == init[i];
        }
      }
    }
  }

  /**
   * Python's `s.strip(chars)` (and, with `Whitespace`, `s.strip()`): removes
   * characters of `cs` from both ends and never from the middle.
   */
  function Strip(s: string, cs: set<char>): string {
    TrimEnd(TrimStart(s, cs), cs)
  }

  /** Neither end of a stripped string is in `cs`, and only a string made of `cs` strips to nothing. */
  lemma StripSpec(s: string, cs: set<char>)
    ensures var r := Strip(s, cs);
            && (r == [] || (r[0] !in cs && r[|r| - 1] !in cs))
            && (r == [] <==> forall i :: 0 <= i < |s| ==> s[i] in cs)
  {
    var t := TrimStart(s, cs);
    var r := Strip(s, cs);
    TrimStartSpec(s, cs);
    TrimEndSpec(t, cs);
    if r != [] {
      assert r[0] == t[0];
      assert s[|s| - |t|] == t[0];
    } else if t != [] {
      assert false;  // every character of t would be in cs, its first one included
    }
  }

  /** Python's `s.replace(c, '')` for a single character `c`. */
  function RemoveChar(s: string, c: char): string
    decreases |s|
  {
    if s == [] then []
    else (if s[0] == c then [] else [s[0]]) + RemoveChar(s[1..], c)
  }

  /** `replace(c, '')` leaves no `c`, keeps every other character, and is the identity on strings without `c`. */
  lemma {:induction false} RemoveCharSpec(s: string, c: char)
    ensures c !in RemoveChar(s, c)
    ensures forall x :: x in RemoveChar(s, c) <==> x in s && x != c
    ensures c !in s ==> RemoveChar(s, c) == s
    ensures |s| == 1 ==> RemoveChar(s, c) == (if s[0] == c then [] else s)
    decreases |s|
  {
    if s != [] {
      RemoveCharSpec(s[1..], c);
      assert forall x :: x in s <==> x == s[0] || x in s[1..];
      if c !in s {
        assert s == [s[0]] + s[1..];
      }
    }
  }

  /**
   * `replace(c, '')` works character by character: on a concatenation it is the
   * concatenation of the two results, so the kept characters stay in order and in number.
   */
  lemma {:induction false} RemoveCharAppend(a: string, b: string, c: char)
    ensures RemoveChar(a + b, c) == RemoveChar(a, c) + RemoveChar(b, c)
    decreases |a|
  {
    if a == [] {
      assert a + b == b;
    } else {
      assert (a + b)[0] == a[0] && (a + b)[1..] == a[1..] + b;
      RemoveCharAppend(a[1..], b, c);
    }
  }

  /** Lexicographic order by code point: Python's `<` on `str`, and SQLite's BINARY collation on UTF-8 text. */
  predicate Less(a: string, b: string)
    decreases |a|
  {
    if |a| == 0 then |b| > 0
    else |b| > 0 && (a[0] < b[0] || (a[0] == b[0] && Less(a[1..], b[1..])))
  }

  // ---------------------------------------------------------------------------
  // Splitting and joining

  /** No occurrence of `sep` lies wholly before its first occurrence. */
  lemma PrefixBeforeFirstOccurrence(s: string, sep: string, i: nat)
    requires |sep| > 0 && IndexOf(s, sep) == Some(i)
    ensures i + |sep| <= |s| && !Contains(s[..i], sep)
  {
    IndexOfSpec(s, sep);
    forall j: nat | OccursAt(s[..i], sep, j)
      ensures false
    {
      assert s[..i][j..j + |sep|] == s[j..j + |sep|];
      assert OccursAt(s, sep, j);
    }
  }

  /** Joining the pieces of a split with the same separator gives back the original string. */
  lemma {:induction false} JoinSplit(s: string, sep: string)
    requires |sep| > 0
    ensures Join(Split(s, sep), sep) == s
    decreases |s|
  {
    match IndexOf(s, sep)
    case None =>
    case Some(i) =>
      var rest := s[i + |sep|..];
      var tail := Split(rest, sep);
      JoinSplit(rest, sep);
      calc {
        Join(Split(s, sep), sep);
        Join([s[..i]] + tail, sep);
        { assert ([s[..i]] + tail)[1..] == tail; }
        s[..i] + sep + Join(tail, sep);
        s[..i] + sep + rest;
        { IndexOfSpec(s, sep); CutAtOccurrence(s, sep, i); }
        s;
      }
  }

  /** A string is the text before an occurrence of `sep`, then `sep`, then the text after it. */
  lemma CutAtOccurrence(s: string, sep: string, i: nat)
    requires OccursAt(s, sep, i)
    ensures s == s[..i] + sep + s[i + |sep|..]
  {
    assert s == s[..i] + s[i..i + |sep|] + s[i + |sep|..];
  }

  /** No piece of a split contains the separator. */
  lemma {:induction false} SplitPiecesAvoidSeparator(s: string, sep: string)
    requires |sep| > 0
    ensures forall k :: 0 <= k < |Split(s, sep)| ==> !Contains(Split(s, sep)[k], sep)
    decreases |s|
  {
    IndexOfSpec(s, sep);
    match IndexOf(s, sep)
    case None =>
    case Some(i) =>
      PrefixBeforeFirstOccurrence(s, sep, i);
      SplitPiecesAvoidSeparator(s[i + |sep|..], sep);
  }

  /** `split(sep)` and `split(sep, 1)` yield a second piece exactly when `sep` occurs. */
  lemma SplitCutsIffContains(s: string, sep: string)
    requires |sep| > 0
    ensures |Split(s, sep)| >= 2 <==> Contains(s, sep)
    ensures |SplitOnce(s, sep)| == 2 <==> Contains(s, sep)
  {
    IndexOfSpec(s, sep);
    match IndexOf(s, sep)
    case None =>
    case Some(i) =>
      assert Split(s, sep) == [s[..i]] + Split(s[i + |sep|..], sep);
  }

  /**
   * When `sep` occurs,
   * `split(sep, 1)[1]` is everything after the first occurrence: all the
   * remaining pieces of `split(sep)` joined back with `sep`.
   */
  lemma SplitOnceKeepsRest(s: string, sep: string)
    requires |sep| > 0
    ensures Contains(s, sep) ==>
              |SplitOnce(s, sep)| == 2 &&
              SplitOnce(s, sep)[0] == Split(s, sep)[0] &&
              SplitOnce(s, sep)[1] == Join(Split(s, sep)[1..], sep)
  {
    SplitCutsIffContains(s, sep);
    if IndexOf(s, sep).Some? {
      var i := IndexOf(s, sep).value;
      var rest := s[i + |sep|..];
      var tail := Split(rest, sep);
      assert Split(s, sep) == [s[..i]] + tail;
      assert Split(s, sep)[1..] == tail;
      JoinSplit(rest, sep);
    }
  }

  /**
   * The first piece of `split(sep)` is the text before the first occurrence
   * of `sep` (or all of `s` when there is none).
   */
  lemma FirstPieceIsBeforeSeparator(s: string, sep: string)
    requires |sep| > 0
    ensures var p := Split(s, sep)[0];
            StartsWith(s, p) && !Contains(p, sep) &&
            (forall j: nat :: j < |p| ==> !OccursAt(s, sep, j)) &&
            (|p| == |s| || OccursAt(s, sep, |p|))
  {
    IndexOfSpec(s, sep);
    match IndexOf(s, sep)
    case None =>
      assert Split(s, sep) == [s];
    case Some(j) =>
      assert Split(s, sep) == [s[..j]] + Split(s[j + |sep|..], sep);
      PrefixBeforeFirstOccurrence(s, sep, j);
  }

  /**
   * The second piece of `split(sep)` is the text between the first and the
   * second occurrence of `sep` (or the end of `s` when there is no second one).
   */
  lemma SecondPieceIsBetweenSeparators(s: string, sep: string, i: nat)
    requires |sep| > 0 && IndexOf(s, sep) == Some(i)
    ensures |Split(s, sep)| >= 2
    ensures var rest := s[i + |sep|..];
            var p := Split(s, sep)[1];
            StartsWith(rest, p) && !Contains(p, sep) &&
            (forall j: nat :: j < |p| ==> !OccursAt(rest, sep, j)) &&
            (|p| == |rest| || OccursAt(rest, sep, |p|))
  {
    var rest := s[i + |sep|..];
    assert Split(s, sep) == [s[..i]] + Split(rest, sep);
    assert Split(s, sep)[1] == Split(rest, sep)[0];
    FirstPieceIsBeforeSeparator(rest, sep);
  }

  // ---------------------------------------------------------------------------
  // Stripping

  /** `Strip` removes a run of `cs` characters from each end and keeps the rest of `s` as one contiguous piece. */
  lemma StripIsMiddlePiece(s: string, cs: set<char>)
    ensures |TrimStart(s, cs)| <= |s|
    ensures var a := |s| - |TrimStart(s, cs)|;
            var r := Strip(s, cs);
            a + |r| <= |s| && r == s[a..a + |r|] &&
            (forall i :: 0 <= i < a ==> s[i] in cs) &&
            (forall i :: a + |r| <= i < |s| ==> s[i] in cs)
  {
    var t := TrimStart(s, cs);
    var a := |s| - |t|;
    var r := TrimEnd(t, cs);
    TrimStartSpec(s, cs);
    TrimEndSpec(t, cs);
    assert r == t[..|r|];
    assert t == s[a..];
    assert s[a..][..|r|] == s[a..a + |r|];
    forall i | a + |r| <= i < |s| ensures s[i] in cs {
      assert s[i] == t[i - a];
    }
  }

  /** A string whose ends are already free of `cs` is left alone by `Strip`. */
  lemma StripKeepsClean(s: string, cs: set<char>)
    requires s == [] || (s[0] !in cs && s[|s| - 1] !in cs)
    ensures Strip(s, cs) == s
  {
  }

  // ---------------------------------------------------------------------------
  // Order

  lemma {:induction false} LessIrreflexive(a: string)
    ensures !Less(a, a)
    decreases |a|
  {
    if |a| > 0 {
      LessIrreflexive(a[1..]);
    }
  }

  lemma {:induction false} LessTransitive(a: string, b: string, c: string)
    requires Less(a, b) && Less(b, c)
    ensures Less(a, c)
    decreases |a|
  {
    if |a| > 0 && a[0] == b[0] && b[0] == c[0] {
      LessTransitive(a[1..], b[1..], c[1..]);
    }
  }

  lemma {:induction false} LessTotal(a: string, b: string)
    ensures a == b || Less(a, b) || Less(b, a)
    decreases |a|
  {
    if |a| > 0 && |b| > 0 && a[0] == b[0] {
      LessTotal(a[1..], b[1..]);
      if a[1..] == b[1..] {
        assert a == [a[0]] + a[1..] && b == [b[0]] + b[1..];
      }
    }
  }

  lemma {:induction false} LessAsymmetric(a: string, b: string)
    requires Less(a, b)
    ensures !Less(b, a)
    decreases |a|
  {
    if |a| > 0 && a[0] == b[0] {
      LessAsymmetric(a[1..], b[1..]);
    }
  }
}
