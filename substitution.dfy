/** Expanding the version variables in a tarball or URL pattern. The
    variables are ``VERSION_MAJOR``, ``VERSION_MINOR``, ``VERSION_MICRO`` and
    ``VERSION``, written bare or as ``${NAME}``. One step replaces one
    occurrence; the expansion repeats steps until no variable is left. */
module Substitution {
  import opened Wrappers
  import opened Text
  import opened Versions

  /** The variables, listed in the order one step tries them: ``VERSION``
      is a prefix of the other three names, so it comes last. */
  datatype Variable = Major | Minor | Micro | Whole

  const Order: seq<Variable> := [Major, Minor, Micro, Whole]

  function Rank(v: Variable): nat {
    match v
    case Major => 0
    case Minor => 1
    case Micro => 2
    case Whole => 3
  }

  function Name(v: Variable): string {
    match v
    case Major => "VERSION_MAJOR"
    case Minor => "VERSION_MINOR"
    case Micro => "VERSION_MICRO"
    case Whole => "VERSION"
  }

  /** ``'${' + var + '}'``. */
  function Braced(v: Variable): string {
    "${" + Name(v) + "}"
  }

  /** The occurrence one step replaces: the braced form when present. */
  function Token(v: Variable, braced: bool): string {
    if braced then Braced(v) else Name(v)
  }

  /** ``getattr(self, var.lower())``: the version or one of its fields. */
  function Value(v: Variable, version: Option<string>): (r: Result<string, FieldError>)
    ensures version.None? ==> r == Err(NoVersion)
    ensures v == Whole && version.Some? ==> r == Ok(version.value)
    ensures v != Whole && version.Some? ==> (r.Ok? <==> Rank(v) <= Count(version.value, '.'))
    ensures v != Whole && r.Ok? ==> '.' !in r.value
  {
    match v
    case Major => VersionField(version, 0)
    case Minor => VersionField(version, 1)
    case Micro => VersionField(version, 2)
    case Whole => if version.None? then Err(NoVersion) else Ok(version.value)
  }

  /** The pattern after one step, and whether a substitution was done. */
  datatype Step = Step(pattern: string, substituted: bool)

  /** ``pattern.replace(token, value, 1)`` with the value of ``v``, or the
      error getting that value raises. */
  function Replace(pattern: string, token: string, v: Variable, version: Option<string>): (r: Result<Step, FieldError>)
    ensures r.Ok? <==> Value(v, version).Ok?
    ensures r.Err? ==> r.error == Value(v, version).error
    ensures r.Ok? ==> r.value.substituted
    ensures r.Ok? && !Contains(pattern, token) ==> r.value.pattern == pattern
    ensures r.Ok? && Contains(pattern, token) ==>
      |r.value.pattern| + |token| == |pattern| + |Value(v, version).value|
  {
    match Value(v, version)
    case Err(e) => Err(e)
    case Ok(value) => Ok(Step(ReplaceFirst(pattern, token, value), true))
  }

  /** The loop of ``_substitute_variables_once`` over the variables still
      to try. */
  function SubstituteFrom(pattern: string, version: Option<string>, vars: seq<Variable>): (r: Result<Step, FieldError>)
    ensures r.Ok? && !r.value.substituted ==> r.value.pattern == pattern
  {
    if vars == [] then Ok(Step(pattern, false))
    else
      var v := vars[0];
      if Contains(pattern, Braced(v)) then
        TokenContainsVersion(pattern, v, true);
        Replace(pattern, Braced(v), v, version)
      else if Contains(pattern, Name(v)) then Replace(pattern, Name(v), v, version)
      else SubstituteFrom(pattern, version, vars[1..])
  }

  lemma ContainsAt(s: string, pat: string, i: nat)
    requires OccursAt(s, pat, i)
    ensures Contains(s, pat)
  {
  }

  /** An occurrence of a string holds an occurrence of each of its pieces. */
  lemma OccursWithin(s: string, big: string, i: nat, small: string, off: nat)
    requires OccursAt(s, big, i)
    requires off + |small| <= |big| && big[off..off + |small|] == small
    ensures OccursAt(s, small, i + off)
  {
    forall k | 0 <= k < |small|
      ensures s[i + off + k] == small[k]
    {
      assert small[k] == big[off + k] == s[i..i + |big|][off + k];
    }
    assert s[i + off..i + off + |small|] == small;
  }

  lemma NameParts(v: Variable)
    ensures |Name(v)| >= 7 && Name(v)[..7] == "VERSION"
    ensures Braced(v)[2..2 + |Name(v)|] == Name(v)
  {
  }

  /** Every variable name, braced or bare, contains ``VERSION``. */
  lemma TokenContainsVersion(s: string, v: Variable, braced: bool)
    requires Contains(s, Token(v, braced))
    ensures Contains(s, Name(v)) && Contains(s, "VERSION")
  {
    var i := IndexOf(s, Token(v, braced)).value;
    NameParts(v);
    var j := if braced then i + 2 else i;
    if braced {
      OccursWithin(s, Braced(v), i, Name(v), 2);
    }
    ContainsAt(s, Name(v), j);
    OccursWithin(s, Name(v), j, "VERSION", 0);
    ContainsAt(s, "VERSION", j);
  }

  /** ``_substitute_variables_once``. */
  function SubstituteOnce(pattern: string, version: Option<string>): (r: Result<Step, FieldError>)
    ensures !Contains(pattern, "VERSION") ==> r == Ok(Step(pattern, false))
    ensures Contains(pattern, "VERSION") ==> r.Err? || r.value.substituted
  {
    SubstituteFromResult(pattern, version, Order);
    SubstituteFrom(pattern, version, Order)
  }

  /** A step substitutes nothing exactly when none of the variables still
      to try occurs. */
  lemma {:induction false} SubstituteFromNothing(pattern: string, version: Option<string>, vars: seq<Variable>)
    ensures var r := SubstituteFrom(pattern, version, vars);
      (r.Ok? && !r.value.substituted) <==> forall k :: 0 <= k < |vars| ==> !Contains(pattern, Name(vars[k]))
  {
    if vars != [] {
      var v := vars[0];
      if Contains(pattern, Braced(v)) {
        assert SubstituteFrom(pattern, version, vars) == Replace(pattern, Braced(v), v, version);
        TokenContainsVersion(pattern, v, true);
      } else if Contains(pattern, Name(v)) {
        assert SubstituteFrom(pattern, version, vars) == Replace(pattern, Name(v), v, version);
      } else {
        assert SubstituteFrom(pattern, version, vars) == SubstituteFrom(pattern, version, vars[1..]);
        SubstituteFromNothing(pattern, version, vars[1..]);
        assert forall k :: 1 <= k < |vars| ==> vars[k] == vars[1..][k - 1];
      }
    }
  }

  lemma {:induction false} SubstituteFromResult(pattern: string, version: Option<string>, vars: seq<Variable>)
    requires Whole in vars || !Contains(pattern, "VERSION")
    ensures var r := SubstituteFrom(pattern, version, vars);
      && (!Contains(pattern, "VERSION") ==> r == Ok(Step(pattern, false)))
      && (Contains(pattern, "VERSION") ==> r.Err? || r.value.substituted)
  {
    if vars != [] {
      var v := vars[0];
      if Contains(pattern, Braced(v)) {
        TokenContainsVersion(pattern, v, true);
      } else if Contains(pattern, Name(v)) {
        TokenContainsVersion(pattern, v, false);
      } else {
        assert v == Whole ==> !Contains(pattern, "VERSION");
        assert vars == [v] + vars[1..];
        assert Whole in vars[1..] || !Contains(pattern, "VERSION");
        SubstituteFromResult(pattern, version, vars[1..]);
      }
    }
  }

  /** The variable and form one step picks: the first variable, in the
      order MAJOR, MINOR, MICRO, VERSION, whose name occurs, in its braced
      form if that occurs. */
  predicate Selects(pattern: string, v: Variable, braced: bool) {
    && Contains(pattern, Name(v))
    && NoneBefore(pattern, v)
    && (braced <==> Contains(pattern, Braced(v)))
  }

  /** No variable tried before ``v`` occurs in ``pattern``. */
  predicate NoneBefore(pattern: string, v: Variable) {
    && (Rank(v) > 0 ==> !Contains(pattern, Name(Major)))
    && (Rank(v) > 1 ==> !Contains(pattern, Name(Minor)))
    && (Rank(v) > 2 ==> !Contains(pattern, Name(Micro)))
  }

  /** One step replaces the first occurrence of the selected token by the
      variable's value, or fails when that value does not exist. */
  lemma SubstituteOnceSelects(pattern: string, version: Option<string>, v: Variable, braced: bool)
    requires Selects(pattern, v, braced)
    ensures SubstituteOnce(pattern, version) == Replace(pattern, Token(v, braced), v, version)
  {
    var o := Order;
    assert o[1..] == [Minor, Micro, Whole];
    assert o[2..] == [Micro, Whole];
    assert o[3..] == [Whole];
    if v == Major {
      TakeFirst(pattern, version, o);
    } else {
      SkipAbsent(pattern, version, o);
      if v == Minor {
        TakeFirst(pattern, version, o[1..]);
      } else {
        SkipAbsent(pattern, version, o[1..]);
        if v == Micro {
          TakeFirst(pattern, version, o[2..]);
        } else {
          SkipAbsent(pattern, version, o[2..]);
          TakeFirst(pattern, version, o[3..]);
        }
      }
    }
  }

  /** A variable whose name does not occur is passed over. */
  lemma SkipAbsent(pattern: string, version: Option<string>, vars: seq<Variable>)
    requires vars != [] && !Contains(pattern, Name(vars[0]))
    ensures SubstituteFrom(pattern, version, vars) == SubstituteFrom(pattern, version, vars[1..])
  {
    if Contains(pattern, Braced(vars[0])) {
      TokenContainsVersion(pattern, vars[0], true);
    }
  }

  /** A variable whose name occurs is substituted, braced form first. */
  lemma TakeFirst(pattern: string, version: Option<string>, vars: seq<Variable>)
    requires vars != [] && Contains(pattern, Name(vars[0]))
    ensures SubstituteFrom(pattern, version, vars)
            == Replace(pattern, Token(vars[0], Contains(pattern, Braced(vars[0]))), vars[0], version)
  {
  }

  /** A pattern holding ``VERSION`` has exactly one selection. */
  function Selection(pattern: string): (r: (Variable, bool))
    requires Contains(pattern, "VERSION")
    ensures Selects(pattern, r.0, r.1)
  {
    var v :=
      if Contains(pattern, Name(Major)) then Major
      else if Contains(pattern, Name(Minor)) then Minor
      else if Contains(pattern, Name(Micro)) then Micro
      else Whole;
    assert Name(Whole) == "VERSION";
    (v, Contains(pattern, Braced(v)))
  }

  /** No other variable or form is selected. */
  lemma SelectionUnique(pattern: string, v: Variable, braced: bool)
    requires Selects(pattern, v, braced)
    ensures Contains(pattern, "VERSION") && Selection(pattern) == (v, braced)
  {
    TokenContainsVersion(pattern, v, false);
  }

  /** ``pattern.replace(token, value, 1)`` where ``token`` occurs: the text
      before the first occurrence, the value, then the text after it. */
  lemma ReplaceFirstSplits(pattern: string, token: string, value: string)
    requires Contains(pattern, token)
    ensures var i := IndexOf(pattern, token).value;
      && pattern == pattern[..i] + token + pattern[i + |token|..]
      && ReplaceFirst(pattern, token, value) == pattern[..i] + value + pattern[i + |token|..]
  {
  }

  /** When the bare ``VERSION`` is substituted, the occurrence replaced is
      not the start of one of the three longer names. */
  lemma BareVersionNotPartOfLongerName(pattern: string, v: Variable)
    requires Selects(pattern, Whole, false) && v != Whole
    ensures !OccursAt(pattern, Name(v), IndexOf(pattern, "VERSION").value)
  {
    if OccursAt(pattern, Name(v), IndexOf(pattern, "VERSION").value) {
      ContainsAt(pattern, Name(v), IndexOf(pattern, "VERSION").value);
    }
  }

  /** An illustration of ``SubstituteOnceSelects`` and ``Selection``:
      ``VERSION_MAJOR`` is replaced as a whole by the major version, not
      read as ``VERSION`` followed by ``_MAJOR``. */
  lemma MajorBeforeVersion()
    ensures SubstituteOnce("VERSION_MAJOR", Some("1.2")) == Ok(Step("1", true))
  {
    var p := "VERSION_MAJOR";
    assert Token(Major, false) == p;
    assert Selects(p, Major, false) by {
      ContainsAt(p, Name(Major), 0);
      assert !Contains(p, Braced(Major));
    }
    SubstituteOnceSelects(p, Some("1.2"), Major, false);
    assert Value(Major, Some("1.2")) == Ok("1") by {
      assert Join(["1", "2"], '.') == "1.2";
      FieldsOfDottedVersion(["1", "2"], 0);
    }
    assert ReplaceFirst(p, p, "1") == "1" by {
      assert IndexOf(p, p) == Some(0);
      assert p[..0] + "1" + p[13..] == "1";
    }
  }

  // ---------------------------------------------------------------------
  // Termination of the repeated substitution

  /** No value that can be substituted contains ``V``: then each step
      removes one ``V`` from the pattern, and the repetition ends. */
  predicate NoV(version: Option<string>) {
    version.Some? ==> 'V' !in version.value
  }

  lemma ValueHasNoV(v: Variable, version: Option<string>)
    requires NoV(version) && Value(v, version).Ok?
    ensures 'V' !in Value(v, version).value
  {
    if 'V' in Value(v, version).value {
      match v
      case Major => FieldChars(version.value, 0, 'V');
      case Minor => FieldChars(version.value, 1, 'V');
      case Micro => FieldChars(version.value, 2, 'V');
      case Whole =>
    }
  }

  lemma {:induction false} CountPositive(s: string, c: char)
    requires c in s
    ensures Count(s, c) > 0
  {
    if s[0] != c {
      CountPositive(s[1..], c);
    }
  }

  lemma ReplaceRemovesV(pattern: string, token: string, v: Variable, version: Option<string>)
    requires NoV(version) && Value(v, version).Ok?
    requires Contains(pattern, token) && 'V' in token
    ensures Count(ReplaceFirst(pattern, token, Value(v, version).value), 'V') < Count(pattern, 'V')
  {
    var value := Value(v, version).value;
    ReplaceFirstSplits(pattern, token, value);
    var i := IndexOf(pattern, token).value;
    var before, after := pattern[..i], pattern[i + |token|..];
    CountAppend(before + token, after, 'V');
    CountAppend(before, token, 'V');
    CountAppend(before + value, after, 'V');
    CountAppend(before, value, 'V');
    ValueHasNoV(v, version);
    CountAbsent(value, 'V');
    CountPositive(token, 'V');
  }

  lemma {:induction false} StepFromRemovesV(pattern: string, version: Option<string>, vars: seq<Variable>)
    requires NoV(version)
    requires SubstituteFrom(pattern, version, vars).Ok?
    requires SubstituteFrom(pattern, version, vars).value.substituted
    ensures Count(SubstituteFrom(pattern, version, vars).value.pattern, 'V') < Count(pattern, 'V')
  {
    var v := vars[0];
    assert Braced(v)[2] == 'V' && Name(v)[0] == 'V';
    if Contains(pattern, Braced(v)) {
      assert SubstituteFrom(pattern, version, vars) == Replace(pattern, Braced(v), v, version);
      ReplaceRemovesV(pattern, Braced(v), v, version);
    } else if Contains(pattern, Name(v)) {
      assert SubstituteFrom(pattern, version, vars) == Replace(pattern, Name(v), v, version);
      ReplaceRemovesV(pattern, Name(v), v, version);
    } else {
      assert SubstituteFrom(pattern, version, vars) == SubstituteFrom(pattern, version, vars[1..]);
      StepFromRemovesV(pattern, version, vars[1..]);
    }
  }

  /** ``_substitute_variables``: steps repeated until one substitutes
      nothing. The result holds no variable name. */
  function SubstituteAll(pattern: string, version: Option<string>): (r: Result<string, FieldError>)
    requires NoV(version)
    ensures r.Ok? ==> !Contains(r.value, "VERSION")
    decreases Count(pattern, 'V')
  {
    match SubstituteOnce(pattern, version)
    case Err(e) => Err(e)
    case Ok(step) =>
      if !step.substituted then Ok(step.pattern)
      else
        StepFromRemovesV(pattern, version, Order);
        SubstituteAll(step.pattern, version)
  }

  // ---------------------------------------------------------------------
  // Properties of the expansion

  /** A pattern without variables is its own expansion. */
  lemma SubstituteAllUnchanged(pattern: string, version: Option<string>)
    requires NoV(version) && !Contains(pattern, "VERSION")
    ensures SubstituteAll(pattern, version) == Ok(pattern)
  {
  }

  /** Without a version, a step on a pattern holding a variable raises. */
  lemma {:induction false} SubstituteFromWithoutVersion(pattern: string, vars: seq<Variable>)
    requires Whole in vars && Contains(pattern, "VERSION")
    ensures SubstituteFrom(pattern, None, vars) == Err(NoVersion)
  {
    var v := vars[0];
    if !Contains(pattern, Braced(v)) && !Contains(pattern, Name(v)) {
      assert v != Whole;
      assert vars == [v] + vars[1..];
      assert Whole in vars[1..];
      SubstituteFromWithoutVersion(pattern, vars[1..]);
    }
  }

  /** Without a version, expanding a pattern that holds a variable raises. */
  lemma SubstituteAllWithoutVersion(pattern: string)
    requires Contains(pattern, "VERSION")
    ensures SubstituteAll(pattern, None) == Err(NoVersion)
  {
    SubstituteFromWithoutVersion(pattern, Order);
  }

  /** With a version of at least three fields every value exists. */
  lemma {:induction false} SubstituteFromSucceeds(pattern: string, version: string, vars: seq<Variable>)
    requires Count(version, '.') >= 2
    ensures SubstituteFrom(pattern, Some(version), vars).Ok?
  {
    if vars != [] {
      SubstituteFromSucceeds(pattern, version, vars[1..]);
    }
  }

  /** With a version of at least three fields, the expansion never raises. */
  lemma {:induction false} SubstituteAllSucceeds(pattern: string, version: string)
    requires 'V' !in version && Count(version, '.') >= 2
    ensures SubstituteAll(pattern, Some(version)).Ok?
    decreases Count(pattern, 'V')
  {
    SubstituteFromSucceeds(pattern, version, Order);
    var step := SubstituteOnce(pattern, Some(version)).value;
    if step.substituted {
      StepFromRemovesV(pattern, Some(version), Order);
      SubstituteAllSucceeds(step.pattern, version);
    }
  }

  /** A version text equal to ``VERSION`` is a fixed point of a step that
      still reports a substitution, so the repetition in the source never
      ends for it; this is why ``SubstituteAll`` asks for ``NoV``. */
  lemma SelfReferentialVersionLoops()
    ensures SubstituteOnce("VERSION", Some("VERSION")) == Ok(Step("VERSION", true))
  {
    var p := "VERSION";
    assert !Contains(p, Name(Major)) && !Contains(p, Name(Minor)) && !Contains(p, Name(Micro));
    assert !Contains(p, Braced(Whole));
    ContainsAt(p, Name(Whole), 0);
    assert Selects(p, Whole, false);
    SubstituteOnceSelects(p, Some(p), Whole, false);
    assert Token(Whole, false) == p;
    assert Value(Whole, Some(p)) == Ok(p);
    assert IndexOf(p, p) == Some(0);
    assert ReplaceFirst(p, p, p) == p[..0] + p + p[7..] == p;
    assert Replace(p, Token(Whole, false), Whole, Some(p)) == Ok(Step(p, true));
  }
}
