/** Reading ``checksums.ini``: lines of the form ``key=value``, the key made
    of ASCII letters, digits and underscores; later assignments override
    earlier ones. */
module Checksums {
  import opened Wrappers
  import opened Text

  /** The class ``[a-zA-Z0-9_]`` of the assignment pattern. */
  predicate IsKeyChar(c: char) {
    'a' <= c <= 'z' || 'A' <= c <= 'Z' || '0' <= c <= '9' || c == '_'
  }

  predicate IsKey(s: string) {
    forall i :: 0 <= i < |s| ==> IsKeyChar(s[i])
  }

  /** Length of the run of key characters that starts ``line``. */
  function KeyLength(line: string): (n: nat)
    ensures n <= |line| && IsKey(line[..n])
    ensures n < |line| ==> !IsKeyChar(line[n])
  {
    if line == [] || !IsKeyChar(line[0]) then 0 else 1 + KeyLength(line[1..])
  }

  /** The match of ``(?P<var>[a-zA-Z0-9_]*)=(?P<value>.*)`` at the start of
      ``line``: the key, then ``=``, then the value, which runs to the first
      newline. */
  function MatchAssignment(line: string): (r: Option<(string, string)>)
    ensures r.Some? ==>
      var (key, value) := r.value;
      && IsKey(key) && '\n' !in value
      && |key| + 1 + |value| <= |line|
      && line[..|key| + 1 + |value|] == key + "=" + value
      && (|key| + 1 + |value| < |line| ==> line[|key| + 1 + |value|] == '\n')
    ensures r.None? <==> forall k :: 0 <= k < |line| && IsKey(line[..k]) ==> line[k] != '='
  {
    var k := KeyLength(line);
    if k < |line| && line[k] == '=' then
      var rest := line[k + 1..];
      var value := rest[..LineEnd(rest)];
      assert line[..k + 1 + |value|] == line[..k] + "=" + value;
      Some((line[..k], value))
    else
      assert forall j :: k < j <= |line| ==> line[..j][k] == line[k];
      None
  }

  /** The assignments of ``lines``, read in order, a later one for a key
      overriding an earlier one. */
  function Assignments(lines: seq<string>): map<string, string> {
    if lines == [] then map[]
    else
      var earlier := Assignments(lines[..|lines| - 1]);
      match MatchAssignment(lines[|lines| - 1])
      case None => earlier
      case Some((key, value)) => earlier[key := value]
  }

  predicate Assigns(line: string, key: string) {
    MatchAssignment(line).Some? && MatchAssignment(line).value.0 == key
  }

  /** The lines ``readlines()`` gives for the file, none when it is missing. */
  function ChecksumLines(content: Option<string>): seq<string> {
    match content
    case None => []
    case Some(text) => LinesKeepEnds(text)
  }

  /** The dictionary ``_init_checksum`` builds from ``checksums.ini``. */
  method ParseChecksums(content: Option<string>) returns (result: map<string, string>)
    ensures result == Assignments(ChecksumLines(content))
  {
    result := map[];
    var lines := ChecksumLines(content);
    for i := 0 to |lines|
      invariant result == Assignments(lines[..i])
    {
      var line := lines[i];
      ghost var seen := lines[..i + 1];
      assert seen[..|seen| - 1] == lines[..i] && seen[|seen| - 1] == line;
      var m := MatchAssignment(line);
      if m.None? {
        continue;
      }
      var (key, value) := m.value;
      result := result[key := value];
    }
    assert lines[..|lines|] == lines;
  }

  /** ``result.get(key, None)``. */
  function Get(m: map<string, string>, key: string): (r: Option<string>)
    ensures r.Some? <==> key in m
    ensures r.Some? ==> r.value == m[key]
  {
    if key in m then Some(m[key]) else None
  }

  // ---------------------------------------------------------------------
  // Properties

  /** A key is present exactly when some line assigns it. */
  lemma AssignmentsKeys(lines: seq<string>, key: string)
    ensures key in Assignments(lines) <==> exists j :: 0 <= j < |lines| && Assigns(lines[j], key)
  {
    if key in Assignments(lines) {
      var j := AssigningLine(lines, key);
    }
    forall j | 0 <= j < |lines| && Assigns(lines[j], key)
      ensures key in Assignments(lines)
    {
      AssignedKeyPresent(lines, j, key);
    }
  }

  /** A key of the dictionary comes from a line that assigns it. */
  lemma {:induction false} AssigningLine(lines: seq<string>, key: string) returns (j: nat)
    requires key in Assignments(lines)
    ensures j < |lines| && Assigns(lines[j], key)
  {
    var init, last := lines[..|lines| - 1], lines[|lines| - 1];
    if Assigns(last, key) {
      j := |lines| - 1;
    } else {
      j := AssigningLine(init, key);
      assert lines[j] == init[j];
    }
  }

  /** A line that assigns a key puts it in the dictionary. */
  lemma {:induction false} AssignedKeyPresent(lines: seq<string>, j: nat, key: string)
    requires j < |lines| && Assigns(lines[j], key)
    ensures key in Assignments(lines)
  {
    var init, last := lines[..|lines| - 1], lines[|lines| - 1];
    if j < |init| {
      assert init[j] == lines[j];
      AssignedKeyPresent(init, j, key);
    }
  }

  /** The last line that assigns a key gives its value. */
  lemma {:induction false} LastAssignmentWins(lines: seq<string>, j: nat, key: string, value: string)
    requires j < |lines| && MatchAssignment(lines[j]) == Some((key, value))
    requires forall i :: j < i < |lines| ==> !Assigns(lines[i], key)
    ensures key in Assignments(lines) && Assignments(lines)[key] == value
  {
    var init := lines[..|lines| - 1];
    if j < |lines| - 1 {
      assert init[j] == lines[j];
      assert !Assigns(lines[|lines| - 1], key);
      assert forall i :: j < i < |init| ==> init[i] == lines[i];
      LastAssignmentWins(init, j, key, value);
    }
  }

  lemma {:induction false} KeyLengthUnique(s: string, n: nat)
    requires n <= |s| && IsKey(s[..n])
    requires n < |s| ==> !IsKeyChar(s[n])
    ensures KeyLength(s) == n
  {
    if s != [] && n > 0 {
      assert s[..n][0] == s[0];
      assert s[1..][..n - 1] == s[..n][1..];
      KeyLengthUnique(s[1..], n - 1);
    }
  }

  /** A line written as ``key=value`` (with or without its newline) reads
      back as that key and value. */
  lemma AssignmentRoundTrip(key: string, value: string, newline: bool)
    requires IsKey(key) && '\n' !in value
    ensures MatchAssignment(key + "=" + value + (if newline then "\n" else ""))
            == Some((key, value))
  {
    var line := key + "=" + value + (if newline then "\n" else "");
    assert line[..|key|] == key;
    assert line[|key|] == '=';
    KeyLengthUnique(line, |key|);
    var rest := line[|key| + 1..];
    assert rest == value + (if newline then "\n" else "");
    assert rest[..|value|] == value;
    if newline {
      IndexOfCharAt(rest, |value|, '\n');
    }
  }
}
