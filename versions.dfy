/** Reading ``package-version.txt`` into a version and a patchlevel, and
    the dotted fields of the version. */
module Versions {
  import opened Wrappers
  import opened Text

  /** The class ``[0-9]``. */
  predicate IsDigit(c: char) {
    '0' <= c <= '9'
  }

  predicate AllDigits(s: string) {
    forall i :: 0 <= i < |s| ==> IsDigit(s[i])
  }

  /** Length of the run of digits that starts ``s``. */
  function DigitRun(s: string): (n: nat)
    ensures n <= |s| && AllDigits(s[..n])
    ensures n < |s| ==> !IsDigit(s[n])
  {
    if s == [] || !IsDigit(s[0]) then 0 else 1 + DigitRun(s[1..])
  }

  /** ``int(d)`` for a string of ASCII digits. */
  function DecimalValue(d: string): (r: nat)
    requires AllDigits(d)
    ensures d != [] && d[0] != '0' ==> r > 0
    ensures d != [] && (d[0] != '0' || |d| == 1) ==> DecimalString(r) == d
  {
    if d == [] then 0
    else 10 * DecimalValue(d[..|d| - 1]) + (d[|d| - 1] as int - '0' as int)
  }

  /** ``str(n)`` for a non-negative integer. */
  function DecimalString(n: nat): (r: string)
    ensures r != [] && AllDigits(r)
  {
    if n < 10 then [('0' as int + n) as char]
    else DecimalString(n / 10) + [('0' as int + n % 10) as char]
  }

  /** ``int(str(n)) == n``. */
  lemma {:induction false} DecimalRoundTrip(n: nat)
    ensures DecimalValue(DecimalString(n)) == n
  {
    if n >= 10 {
      var d := DecimalString(n);
      assert d[..|d| - 1] == DecimalString(n / 10);
      DecimalRoundTrip(n / 10);
    }
  }

  /** ``s[i..]`` starts with ``.p`` and a digit. */
  predicate MarkerAt(s: string, i: nat) {
    i + 2 < |s| && s[i] == '.' && s[i + 1] == 'p' && IsDigit(s[i + 2])
  }

  /** The last position below ``hi`` where a marker starts. */
  function LastMarker(s: string, hi: nat): (r: Option<nat>)
    requires hi <= |s|
    ensures r.Some? ==> r.value < hi && MarkerAt(s, r.value)
    ensures r.Some? ==> forall j :: r.value < j < hi ==> !MarkerAt(s, j)
    ensures r.None? ==> forall j: nat :: j < hi ==> !MarkerAt(s, j)
  {
    if hi == 0 then None
    else if MarkerAt(s, hi - 1) then Some(hi - 1)
    else LastMarker(s, hi - 1)
  }

  /** ``VERSION_PATCHLEVEL.match(s)`` for ``(?P<version>.*)\.p(?P<patchlevel>[0-9]+)``:
      the version group cannot cross a newline and is greedy, so the match
      uses the last marker of the first line, and the digits run as far as
      they go. The result is the two groups. */
  function MatchPatchlevel(s: string): (r: Option<(string, string)>)
    ensures r.Some? ==>
      var (version, digits) := r.value;
      && '\n' !in version && digits != [] && AllDigits(digits)
      && |version| + 2 + |digits| <= |s|
      && s[..|version| + 2 + |digits|] == version + ".p" + digits
      && (|version| + 2 + |digits| < |s| ==> !IsDigit(s[|version| + 2 + |digits|]))
      && forall j :: |version| < j < LineEnd(s) ==> !MarkerAt(s, j)
    ensures r.None? <==> forall j: nat :: j < LineEnd(s) ==> !MarkerAt(s, j)
  {
    match LastMarker(s, LineEnd(s))
    case None => None
    case Some(i) =>
      var rest := s[i + 2..];
      var digits := rest[..DigitRun(rest)];
      assert s[..i + 2 + |digits|] == s[..i] + ".p" + digits;
      assert '\n' !in s[..i] by {
        assert s[..i] == s[..LineEnd(s)][..i];
      }
      Some((s[..i], digits))
  }

  /** The version and the patchlevel ``_init_version`` records: both
      ``None`` when the file is missing, patchlevel -1 when the text has no
      ``.p<digits>`` suffix. */
  datatype VersionInfo = VersionInfo(version: Option<string>, patchlevel: Option<int>)

  function ParseVersion(content: Option<string>): (r: VersionInfo)
    ensures content.None? <==> r.version.None?
    ensures content.None? <==> r.patchlevel.None?
    ensures r.patchlevel.Some? ==> r.patchlevel.value >= -1
    ensures content.Some? ==>
      (r.patchlevel.value == -1 <==> MatchPatchlevel(Strip(content.value)).None?)
    ensures content.Some? && MatchPatchlevel(Strip(content.value)).None? ==>
      r.version == Some(Strip(content.value))
    ensures content.Some? && MatchPatchlevel(Strip(content.value)).Some? ==>
      var (version, digits) := MatchPatchlevel(Strip(content.value)).value;
      r == VersionInfo(Some(version), Some(DecimalValue(digits)))
  {
    match content
    case None => VersionInfo(None, None)
    case Some(text) =>
      var stripped := Strip(text);
      match MatchPatchlevel(stripped)
      case None => VersionInfo(Some(stripped), Some(-1))
      case Some((version, digits)) => VersionInfo(Some(version), Some(DecimalValue(digits)))
  }

  /** A version text without the marker is kept whole, with patchlevel -1. */
  lemma ParseVersionNoPatchlevel(text: string)
    requires forall j: nat :: j < LineEnd(Strip(text)) ==> !MarkerAt(Strip(text), j)
    ensures ParseVersion(Some(text)) == VersionInfo(Some(Strip(text)), Some(-1))
  {
  }

  /** In ``<version>.p<digits>`` the only marker is the one after the
      version, so the pattern matches there and takes all the digits. */
  lemma MatchPatchlevelSuffix(version: string, digits: string)
    requires '\n' !in version && digits != [] && AllDigits(digits)
    ensures MatchPatchlevel(version + ".p" + digits) == Some((version, digits))
  {
    var s := version + ".p" + digits;
    var n := |version|;
    assert '\n' !in digits by {
      assert forall i :: 0 <= i < |digits| ==> IsDigit(digits[i]);
    }
    assert '\n' !in s;
    assert LineEnd(s) == |s|;
    assert s[n..] == ".p" + digits;
    assert MarkerAt(s, n) by {
      assert s[n + 2] == digits[0];
    }
    assert forall j: nat :: n + 1 <= j < |s| ==> s[j] != '.' by {
      assert forall j: nat :: n + 2 <= j < |s| ==> s[j] == digits[j - n - 2];
    }
    var r := LastMarker(s, |s|);
    assert r == Some(n);
    var rest := s[n + 2..];
    assert rest == digits;
    assert DigitRun(rest) == |digits|;
    assert rest[..DigitRun(rest)] == digits;
    assert s[..n] == version;
    assert MatchPatchlevel(s) == Some((s[..n], rest[..DigitRun(rest)]));
  }

  /** Writing a version and a patchlevel as ``<version>.p<patchlevel>`` and
      reading the text back gives them again, for any one-line version that
      does not start with whitespace. */
  lemma ParseVersionRoundTrip(version: string, patchlevel: nat)
    requires '\n' !in version
    requires version != [] ==> !IsSpace(version[0])
    ensures ParseVersion(Some(version + ".p" + DecimalString(patchlevel)))
            == VersionInfo(Some(version), Some(patchlevel))
  {
    var digits := DecimalString(patchlevel);
    var s := version + ".p" + digits;
    assert s[0] == if version == [] then '.' else version[0];
    assert s[|s| - 1] == digits[|digits| - 1];
    StripUnchanged(s);
    MatchPatchlevelSuffix(version, digits);
    DecimalRoundTrip(patchlevel);
  }

  /** Why ``version_major``, ``version_minor`` or ``version_micro`` raises:
      the package has no version (``None`` has no ``split``), or the
      version has too few fields (``IndexError``). */
  datatype FieldError = NoVersion | NoSuchField(index: nat)

  /** ``version.split('.')[index]``. */
  function VersionField(version: Option<string>, index: nat): (r: Result<string, FieldError>)
    ensures version.None? ==> r == Err(NoVersion)
    ensures version.Some? ==> (r.Ok? <==> index <= Count(version.value, '.'))
    ensures version.Some? && r.Err? ==> r.error == NoSuchField(index)
    ensures r.Ok? ==> '.' !in r.value
  {
    match version
    case None => Err(NoVersion)
    case Some(v) =>
      var fields := SplitOn(v, '.');
      SplitOnCount(v, '.');
      if index < |fields| then Ok(fields[index]) else Err(NoSuchField(index))
  }

  /** With no ``.`` in the version, the major version is the whole version
      and there is no minor version. */
  lemma MajorOfUndottedVersion(version: string)
    requires '.' !in version
    ensures VersionField(Some(version), 0) == Ok(version)
    ensures VersionField(Some(version), 1) == Err(NoSuchField(1))
  {
    SplitOnJoin([version], '.');
    CountAbsent(version, '.');
  }

  /** The fields of ``a.b.c...`` are ``a``, ``b``, ``c``, ... */
  lemma FieldsOfDottedVersion(parts: seq<string>, index: nat)
    requires |parts| >= 1 && index < |parts|
    requires forall k :: 0 <= k < |parts| ==> '.' !in parts[k]
    ensures VersionField(Some(Join(parts, '.')), index) == Ok(parts[index])
  {
    SplitOnJoin(parts, '.');
  }

  /** Every character of a field is a character of the version. */
  lemma FieldChars(version: string, index: nat, x: char)
    requires VersionField(Some(version), index).Ok?
    requires x in VersionField(Some(version), index).value
    ensures x in version
  {
    JoinHasPartChars(SplitOn(version, '.'), '.', index, x);
  }
}
