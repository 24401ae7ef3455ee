/** The Python string operations the package metadata code relies on:
    ``str.strip()``, ``str.split()``, ``str.split(sep)``, ``str.partition``,
    ``in``, ``str.replace(old, new, 1)``, ``readline()`` and ``readlines()``. */
module Text {
  import opened Wrappers

  /** Python 3's ``str.isspace()``: the characters ``strip()`` and
      ``split()`` without arguments treat as whitespace. */
  predicate IsSpace(c: char) {
    || c == ' '
    || '\t' <= c <= '\r'
    || '\U{1c}' <= c <= '\U{1f}'
    || c == '\U{85}' || c == '\U{a0}' || c == '\U{1680}'
    || '\U{2000}' <= c <= '\U{200a}'
    || c == '\U{2028}' || c == '\U{2029}' || c == '\U{202f}'
    || c == '\U{205f}' || c == '\U{3000}'
  }

  predicate AllSpace(s: string) {
    forall i :: 0 <= i < |s| ==> IsSpace(s[i])
  }

  predicate NoSpace(s: string) {
    forall i :: 0 <= i < |s| ==> !IsSpace(s[i])
  }

  /** The characters of ``s`` that are not whitespace, in order. */
  function NonSpace(s: string): string {
    if s == [] then []
    else (if IsSpace(s[0]) then [] else [s[0]]) + NonSpace(s[1..])
  }

  /** The concatenation of a list of strings, ``''.join(parts)``. */
  function Concat(parts: seq<string>): string {
    if parts == [] then [] else parts[0] + Concat(parts[1..])
  }

  /** Number of whitespace characters at the start of ``s``. */
  function LeadingSpaces(s: string): (n: nat)
    ensures n <= |s| && AllSpace(s[..n])
    ensures n < |s| ==> !IsSpace(s[n])
  {
    if s == [] || !IsSpace(s[0]) then 0 else 1 + LeadingSpaces(s[1..])
  }

  /** Number of whitespace characters at the end of ``s``. */
  function TrailingSpaces(s: string): (n: nat)
    ensures n <= |s| && AllSpace(s[|s| - n..])
    ensures n < |s| ==> !IsSpace(s[|s| - 1 - n])
  {
    if s == [] || !IsSpace(s[|s| - 1]) then 0
    else
      var init := s[..|s| - 1];
      var n := TrailingSpaces(init);
      assert s[|s| - 1 - n..] == init[|init| - n..] + [s[|s| - 1]];
      1 + n
  }

  /** ``s.strip()``: ``s`` is whitespace, then the result, then whitespace,
      and the result neither starts nor ends with whitespace. */
  function Strip(s: string): (r: string)
    ensures LeadingSpaces(s) + |r| <= |s|
    ensures AllSpace(s[..LeadingSpaces(s)])
    ensures s[LeadingSpaces(s)..LeadingSpaces(s) + |r|] == r
    ensures AllSpace(s[LeadingSpaces(s) + |r|..])
    ensures r != [] ==> !IsSpace(r[0]) && !IsSpace(r[|r| - 1])
  {
    var lead := LeadingSpaces(s);
    var trail := TrailingSpaces(s);
    if lead == |s| then []
    else
      s[lead..|s| - trail]
  }

  /** Length of the run of non-whitespace characters that starts ``s``. */
  function WordLength(s: string): (n: nat)
    ensures n <= |s| && NoSpace(s[..n])
    ensures n < |s| ==> IsSpace(s[n])
  {
    if s == [] || IsSpace(s[0]) then 0 else 1 + WordLength(s[1..])
  }

  /** ``s.split()``: the maximal runs of non-whitespace characters. */
  function Split(s: string): (r: seq<string>)
    ensures forall k :: 0 <= k < |r| ==> r[k] != [] && NoSpace(r[k])
    decreases |s|
  {
    if s == [] then []
    else if IsSpace(s[0]) then Split(s[1..])
    else
      var n := WordLength(s);
      [s[..n]] + Split(s[n..])
  }

  /** Index of the first ``c`` in ``s``, if any. */
  function IndexOfChar(s: string, c: char): (r: Option<nat>)
    ensures r.Some? ==> r.value < |s| && s[r.value] == c && c !in s[..r.value]
    ensures r.None? ==> c !in s
  {
    if s == [] then None
    else if s[0] == c then Some(0)
    else match IndexOfChar(s[1..], c)
      case None => None
      case Some(i) => assert s[..i + 1] == [s[0]] + s[1..][..i]; Some(i + 1)
  }

  /** ``sep.join(parts)``. */
  function Join(parts: seq<string>, sep: char): string {
    if parts == [] then []
    else if |parts| == 1 then parts[0]
    else parts[0] + [sep] + Join(parts[1..], sep)
  }

  /** ``s.split(sep)`` for a one-character separator: the fields between
      the separators, empty ones included. */
  function SplitOn(s: string, sep: char): (r: seq<string>)
    ensures |r| >= 1
    ensures forall k :: 0 <= k < |r| ==> sep !in r[k]
    ensures Join(r, sep) == s
    decreases |s|
  {
    match IndexOfChar(s, sep)
    case None => [s]
    case Some(i) =>
      var rest := SplitOn(s[i + 1..], sep);
      assert s == s[..i] + [sep] + s[i + 1..];
      [s[..i]] + rest
  }

  /** ``s.partition(sep)[0]`` and ``s.partition(sep)[2]``. */
  function Partition(s: string, sep: char): (r: (string, string))
    ensures sep !in r.0
    ensures sep in s ==> s == r.0 + [sep] + r.1
    ensures sep !in s ==> r.0 == s && r.1 == []
  {
    match IndexOfChar(s, sep)
    case None => (s, [])
    case Some(i) => assert s == s[..i] + [sep] + s[i + 1..]; (s[..i], s[i + 1..])
  }

  /** Index of the first newline of ``line``, or its length: ``line[..LineEnd(line)]``
      is what the regular expression ``.*`` matches at the start of ``line``. */
  function LineEnd(line: string): (n: nat)
    ensures n <= |line| && '\n' !in line[..n]
    ensures n < |line| ==> line[n] == '\n'
  {
    match IndexOfChar(line, '\n')
    case None => |line|
    case Some(i) => i
  }

  /** A line as ``readlines()`` gives it: not empty, and a newline at
      most as its last character. */
  predicate IsLine(line: string) {
    line != [] && '\n' !in line[..|line| - 1]
  }

  predicate EndsWithNewline(line: string) {
    line != [] && line[|line| - 1] == '\n'
  }

  /** ``readline()`` on a file holding ``s``: the first line with its
      terminating newline, or all of ``s`` when it has no newline. */
  function ReadLine(s: string): (r: string)
    ensures |r| <= |s| && s[..|r|] == r
    ensures s != [] ==> IsLine(r)
    ensures '\n' in s ==> EndsWithNewline(r)
    ensures '\n' !in s ==> r == s
  {
    match IndexOfChar(s, '\n')
    case None => s
    case Some(i) => assert s[..i + 1][..i] == s[..i]; s[..i + 1]
  }

  /** ``readlines()`` on a file holding ``s``: the lines with their
      newlines kept; only the last may lack one. */
  function LinesKeepEnds(s: string): (r: seq<string>)
    ensures forall k :: 0 <= k < |r| ==> IsLine(r[k])
    ensures forall k :: 0 <= k < |r| - 1 ==> EndsWithNewline(r[k])
    decreases |s|
  {
    if s == [] then []
    else
      var line := ReadLine(s);
      var rest := LinesKeepEnds(s[|line|..]);
      var r := [line] + rest;
      assert r[0] == line && r[1..] == rest;
      r
  }

  /** The lines put back together give the whole text. */
  lemma {:induction false} LinesConcat(s: string)
    ensures Concat(LinesKeepEnds(s)) == s
    decreases |s|
  {
    if s != [] {
      var line := ReadLine(s);
      var after := s[|line|..];
      var rest := LinesKeepEnds(after);
      calc {
        Concat(LinesKeepEnds(s));
        Concat([line] + rest);
        { ConcatCons(line, rest); }
        line + Concat(rest);
        { LinesConcat(after); }
        line + after;
        { assert s[..|line|] == line; }
        s;
      }
    }
  }

  lemma ConcatCons(head: string, rest: seq<string>)
    ensures Concat([head] + rest) == head + Concat(rest)
  {
    assert ([head] + rest)[1..] == rest;
  }

  predicate OccursAt(s: string, pat: string, i: nat) {
    i + |pat| <= |s| && s[i..i + |pat|] == pat
  }

  /** Index of the first occurrence of ``pat`` in ``s`` at or after ``from``. */
  function IndexFrom(s: string, pat: string, from: nat): (r: Option<nat>)
    requires from <= |s|
    ensures r.Some? ==> from <= r.value && OccursAt(s, pat, r.value)
    ensures r.Some? ==> forall j :: from <= j < r.value ==> !OccursAt(s, pat, j)
    ensures r.None? ==> forall j :: from <= j ==> !OccursAt(s, pat, j)
    decreases |s| - from
  {
    if from + |pat| > |s| then None
    else if s[from..from + |pat|] == pat then Some(from)
    else if from == |s| then None
    else IndexFrom(s, pat, from + 1)
  }

  /** ``s.find(pat)``, as an option: the first occurrence of ``pat``. */
  function IndexOf(s: string, pat: string): (r: Option<nat>)
    ensures r.Some? ==> OccursAt(s, pat, r.value)
    ensures r.Some? ==> forall j :: 0 <= j < r.value ==> !OccursAt(s, pat, j)
    ensures r.None? ==> forall j :: 0 <= j ==> !OccursAt(s, pat, j)
  {
    IndexFrom(s, pat, 0)
  }

  /** ``pat in s``. */
  predicate Contains(s: string, pat: string) {
    IndexOf(s, pat).Some?
  }

  /** ``pat in s`` holds exactly when ``pat`` occurs at some index. */
  lemma ContainsOccurs(s: string, pat: string)
    ensures Contains(s, pat) <==> exists i: nat :: OccursAt(s, pat, i)
  {
  }

  /** ``s.replace(pat, value, 1)``: the first occurrence of ``pat`` replaced. */
  function ReplaceFirst(s: string, pat: string, value: string): (r: string)
    ensures !Contains(s, pat) ==> r == s
    ensures Contains(s, pat) ==> exists i: nat ::
      && OccursAt(s, pat, i)
      && (forall j :: 0 <= j < i ==> !OccursAt(s, pat, j))
      && r == s[..i] + value + s[i + |pat|..]
  {
    match IndexOf(s, pat)
    case None => s
    case Some(i) => s[..i] + value + s[i + |pat|..]
  }

  /** Number of occurrences of ``c`` in ``s``, ``s.count(c)``. */
  function Count(s: string, c: char): nat {
    if s == [] then 0 else (if s[0] == c then 1 else 0) + Count(s[1..], c)
  }

  // ---------------------------------------------------------------------
  // Properties of the string operations

  lemma {:induction false} CountAppend(x: string, y: string, c: char)
    ensures Count(x + y, c) == Count(x, c) + Count(y, c)
  {
    if x != [] {
      assert (x + y)[1..] == x[1..] + y;
      CountAppend(x[1..], y, c);
    } else {
      assert x + y == y;
    }
  }

  lemma {:induction false} CountAbsent(s: string, c: char)
    requires c !in s
    ensures Count(s, c) == 0
  {
    if s != [] {
      CountAbsent(s[1..], c);
    }
  }

  /** A string that starts and ends with non-whitespace is its own strip. */
  lemma StripUnchanged(s: string)
    requires s != [] ==> !IsSpace(s[0]) && !IsSpace(s[|s| - 1])
    ensures Strip(s) == s
  {
    assert LeadingSpaces(s) == 0;
    assert TrailingSpaces(s) == 0;
  }

  /** ``s.strip().strip() == s.strip()``. */
  lemma StripIdempotent(s: string)
    ensures Strip(Strip(s)) == Strip(s)
  {
    StripUnchanged(Strip(s));
  }

  lemma {:induction false} WordLengthUnique(s: string, n: nat)
    requires n <= |s| && NoSpace(s[..n])
    requires n < |s| ==> IsSpace(s[n])
    ensures WordLength(s) == n
  {
    if s != [] && n > 0 {
      assert s[..n][0] == s[0];
      assert s[1..][..n - 1] == s[..n][1..];
      WordLengthUnique(s[1..], n - 1);
    }
  }

  lemma {:induction false} SplitAllSpace(s: string)
    requires AllSpace(s)
    ensures Split(s) == []
    decreases |s|
  {
    if s != [] {
      SplitAllSpace(s[1..]);
    }
  }

  /** Whitespace in front of a string adds no token. */
  lemma {:induction false} SplitPrependSpaces(a: string, b: string)
    requires AllSpace(a)
    ensures Split(a + b) == Split(b)
    decreases |a|
  {
    if a != [] {
      assert (a + b)[0] == a[0];
      assert (a + b)[1..] == a[1..] + b;
      SplitPrependSpaces(a[1..], b);
    } else {
      assert a + b == b;
    }
  }

  /** Whitespace after a string adds no token. */
  lemma {:induction false} SplitAppendSpaces(a: string, b: string)
    requires AllSpace(b)
    ensures Split(a + b) == Split(a)
    decreases |a|
  {
    if a == [] {
      assert a + b == b;
      SplitAllSpace(b);
    } else if IsSpace(a[0]) {
      assert (a + b)[0] == a[0];
      assert (a + b)[1..] == a[1..] + b;
      SplitAppendSpaces(a[1..], b);
    } else {
      var m := WordLength(a);
      assert (a + b)[..m] == a[..m];
      if m < |a| {
        assert (a + b)[m] == a[m];
      } else if b != [] {
        assert (a + b)[m] == b[0];
      }
      WordLengthUnique(a + b, m);
      assert (a + b)[m..] == a[m..] + b;
      SplitAppendSpaces(a[m..], b);
    }
  }

  /** ``s.strip().split() == s.split()``. */
  lemma SplitStrip(s: string)
    ensures Split(Strip(s)) == Split(s)
  {
    var lead := LeadingSpaces(s);
    var r := Strip(s);
    var head, tail := s[..lead], s[lead + |r|..];
    calc {
      Split(s);
      { assert s == head + (r + tail); }
      Split(head + (r + tail));
      { SplitPrependSpaces(head, r + tail); }
      Split(r + tail);
      { SplitAppendSpaces(r, tail); }
      Split(r);
    }
  }

  /** Splitting at a whitespace character: the tokens on either side,
      in order. */
  lemma {:induction false} SplitAtSpace(a: string, c: char, b: string)
    requires IsSpace(c)
    ensures Split(a + [c] + b) == Split(a) + Split(b)
    decreases |a|
  {
    var s := a + [c] + b;
    if a == [] {
      assert s[1..] == b;
    } else if IsSpace(a[0]) {
      assert s[0] == a[0];
      assert s[1..] == a[1..] + [c] + b;
      SplitAtSpace(a[1..], c, b);
    } else {
      var m := WordLength(a);
      assert s[..m] == a[..m];
      assert s[m] == if m < |a| then a[m] else c;
      WordLengthUnique(s, m);
      if m < |a| {
        assert s[m..] == a[m..] + [c] + b;
        SplitAtSpace(a[m..], c, b);
      } else {
        assert s[m..] == [c] + b;
        assert ([c] + b)[1..] == b;
        assert a[m..] == [];
      }
    }
  }

  lemma {:induction false} NonSpaceAppend(x: string, y: string)
    ensures NonSpace(x + y) == NonSpace(x) + NonSpace(y)
  {
    if x != [] {
      assert (x + y)[1..] == x[1..] + y;
      NonSpaceAppend(x[1..], y);
    } else {
      assert x + y == y;
    }
  }

  lemma {:induction false} NonSpaceOfWord(w: string)
    requires NoSpace(w)
    ensures NonSpace(w) == w
  {
    if w != [] {
      NonSpaceOfWord(w[1..]);
    }
  }

  /** The tokens of ``s.split()``, concatenated, are exactly the
      non-whitespace characters of ``s``: nothing is lost or reordered. */
  lemma {:induction false} SplitKeepsNonSpace(s: string)
    ensures Concat(Split(s)) == NonSpace(s)
    decreases |s|
  {
    if s == [] {
    } else if IsSpace(s[0]) {
      SplitKeepsNonSpace(s[1..]);
    } else {
      var n := WordLength(s);
      var w, rest := s[..n], s[n..];
      calc {
        Concat(Split(s));
        Concat([w] + Split(rest));
        { ConcatCons(w, Split(rest)); }
        w + Concat(Split(rest));
        { SplitKeepsNonSpace(rest); }
        w + NonSpace(rest);
        { NonSpaceOfWord(w); }
        NonSpace(w) + NonSpace(rest);
        { NonSpaceAppend(w, rest); assert s == w + rest; }
        NonSpace(s);
      }
    }
  }

  /** A single word is its own and only token. */
  lemma SplitWord(w: string)
    requires w != [] && NoSpace(w)
    ensures Split(w) == [w]
  {
    assert WordLength(w) == |w| by {
      WordLengthUnique(w, |w|);
    }
    assert w[..|w|] == w;
    assert w[|w|..] == [];
  }

  lemma {:induction false} NonSpaceOfSpaces(s: string)
    requires AllSpace(s)
    ensures NonSpace(s) == []
  {
    if s != [] {
      NonSpaceOfSpaces(s[1..]);
    }
  }

  /** Stripping removes only whitespace. */
  lemma NonSpaceStrip(s: string)
    ensures NonSpace(Strip(s)) == NonSpace(s)
  {
    var lead, r := LeadingSpaces(s), Strip(s);
    var head, tail := s[..lead], s[lead + |r|..];
    assert s == head + r + tail;
    NonSpaceOfSpaces(head);
    NonSpaceOfSpaces(tail);
    NonSpaceAppend(head + r, tail);
    NonSpaceAppend(head, r);
  }

  lemma {:induction false} ConcatAppend(a: seq<string>, b: seq<string>)
    ensures Concat(a + b) == Concat(a) + Concat(b)
  {
    if a != [] {
      assert (a + b)[1..] == a[1..] + b;
      ConcatAppend(a[1..], b);
    } else {
      assert a + b == b;
    }
  }

  /** The tokens of ``s.strip().split()``, concatenated, are the
      non-whitespace characters of ``s``. */
  lemma StrippedTokens(s: string)
    ensures Concat(Split(Strip(s))) == NonSpace(s)
  {
    SplitKeepsNonSpace(Strip(s));
    NonSpaceStrip(s);
  }

  /** The tokens of ``a.strip().split() + b.strip().split()``,
      concatenated, are the non-whitespace characters of ``a`` then of ``b``. */
  lemma StrippedTokensAppend(a: string, b: string)
    ensures Concat(Split(Strip(a)) + Split(Strip(b))) == NonSpace(a) + NonSpace(b)
  {
    ConcatAppend(Split(Strip(a)), Split(Strip(b)));
    StrippedTokens(a);
    StrippedTokens(b);
  }

  /** A non-empty stripped string has at least one token. */
  lemma SplitStrippedNonEmpty(s: string)
    requires s != [] && !IsSpace(s[0])
    ensures Split(s) != [] && s[..|Split(s)[0]|] == Split(s)[0]
  {
  }

  lemma IndexOfCharAt(s: string, i: nat, c: char)
    requires i < |s| && s[i] == c && c !in s[..i]
    ensures IndexOfChar(s, c) == Some(i)
  {
  }

  /** ``sep.join(parts).split(sep) == parts`` when no part holds ``sep``. */
  lemma {:induction false} SplitOnJoin(parts: seq<string>, sep: char)
    requires |parts| >= 1
    requires forall k :: 0 <= k < |parts| ==> sep !in parts[k]
    ensures SplitOn(Join(parts, sep), sep) == parts
  {
    if |parts| > 1 {
      var s := Join(parts, sep);
      var p := parts[0];
      assert s == p + [sep] + Join(parts[1..], sep);
      assert s[..|p|] == p;
      IndexOfCharAt(s, |p|, sep);
      assert s[|p| + 1..] == Join(parts[1..], sep);
      SplitOnJoin(parts[1..], sep);
    }
  }

  /** Joining ``n`` separator-free parts puts ``n - 1`` separators. */
  lemma {:induction false} JoinCount(parts: seq<string>, sep: char)
    requires |parts| >= 1
    requires forall k :: 0 <= k < |parts| ==> sep !in parts[k]
    ensures Count(Join(parts, sep), sep) == |parts| - 1
  {
    CountAbsent(parts[0], sep);
    if |parts| > 1 {
      JoinCount(parts[1..], sep);
      CountAppend(parts[0] + [sep], Join(parts[1..], sep), sep);
      CountAppend(parts[0], [sep], sep);
    }
  }

  /** ``s.split(sep)`` has one more field than ``s`` has separators. */
  lemma SplitOnCount(s: string, sep: char)
    ensures |SplitOn(s, sep)| == Count(s, sep) + 1
  {
    JoinCount(SplitOn(s, sep), sep);
  }

  /** Every character of a field of ``s.split(sep)`` is a character of ``s``. */
  lemma {:induction false} JoinHasPartChars(parts: seq<string>, sep: char, k: nat, x: char)
    requires k < |parts| && x in parts[k]
    ensures x in Join(parts, sep)
  {
    if |parts| > 1 {
      assert Join(parts, sep) == parts[0] + [sep] + Join(parts[1..], sep);
      if k > 0 {
        JoinHasPartChars(parts[1..], sep, k - 1, x);
      }
    }
  }

  /** A character absent from ``s`` is absent from every token of ``s.split()``. */
  lemma {:induction false} SplitAvoids(s: string, x: char)
    requires x !in s
    ensures forall k :: 0 <= k < |Split(s)| ==> x !in Split(s)[k]
    decreases |s|
  {
    if s != [] {
      if IsSpace(s[0]) {
        SplitAvoids(s[1..], x);
      } else {
        var n := WordLength(s);
        assert x !in s[n..];
        SplitAvoids(s[n..], x);
      }
    }
  }

  /** A character absent from ``s`` is absent from ``s.strip()``. */
  lemma StripAvoids(s: string, x: char)
    requires x !in s
    ensures x !in Strip(s)
  {
    var r := Strip(s);
    assert r == s[LeadingSpaces(s)..LeadingSpaces(s) + |r|];
  }
}
