# Sage package metadata, modelled in Dafny

This project models the `Package` class of the Sage build bootstrap
(`build/sage_bootstrap/package.py`). A Sage package is a directory under
`build/pkgs/` that holds small text files: `checksums.ini`,
`package-version.txt`, `type`, `install-requires.txt`, `dependencies`,
`dependencies_check` and `dependencies_order_only`. `Package` reads them into
private fields when it is constructed. It then derives further values from
those fields:

- the major, minor and micro parts of the version;
- the Python distribution name;
- the ordinary, order-only and check dependency lists;
- the tarball file name and upstream URL, which come from patterns in which
  `VERSION`, `VERSION_MAJOR`, `VERSION_MINOR` and `VERSION_MICRO` (bare or as
  `${...}`) are replaced by the version.

The model has six modules.

- `Wrappers`: `Option` and `Result`.
- `Text`: the Python string operations the class relies on, with the
  semantics of Python 3 `str`:
  - `strip()` and `split()` over the full Python 3 `str.isspace()` character
    set (Python 2 byte strings would strip only ASCII whitespace);
  - `split('\n')` keeping empty fields;
  - `partition`, `in` and `replace(old, new, 1)`;
  - `readline()`, and `readlines()` with line ends kept.
- `Checksums`: the `key=value` recogniser of `_init_checksum` and the
  dictionary it builds.
- `Versions`: the `VERSION_PATCHLEVEL` recogniser, `_init_version`, and the
  `split('.')[i]` fields of the version.
- `Substitution`: `_substitute_variables_once`, and its repetition as a
  function with a termination measure.
- `Packages`: the `Package` class.
  - The `_init_*` steps are methods that assign the fields.
  - `Package(name)` is the static method `Open`. It fails as the constructor
    raises, when the `type` file is missing or holds an unknown word.
  - The getters are functions over the fields.
  - `distribution_name` and `_substitute_variables` are loops, proved against
    the specification functions `DistributionNameOf` and `SubstituteAll`.

Each metadata file is given to the model as its text, `Some(text)`, or as
`None` when it cannot be opened. `None` takes the place of the `IOError` the
source catches.

Errors of the derived values are `Result` errors: `FieldError.NoVersion` when
there is no version, which raises `AttributeError` or `TypeError` in the
source, and `FieldError.NoSuchField(i)` for the `IndexError` of
`version.split('.')[i]`.

## Model

| member | source | states |
|---|---|---|
| Text.Strip | build/sage_bootstrap/package.py:403 | `s` is leading whitespace, then the result, then trailing whitespace; the result neither starts nor ends with whitespace (the `str.isspace()` set) |
| Text.StripUnchanged | build/sage_bootstrap/package.py:311 | a string that neither starts nor ends with whitespace is its own strip |
| Text.StripIdempotent | build/sage_bootstrap/package.py:311 | `s.strip().strip() == s.strip()` |
| Text.Split | build/sage_bootstrap/package.py:314 | every token of `split()` is non-empty and holds no whitespace |
| Text.SplitKeepsNonSpace | build/sage_bootstrap/package.py:314 | the tokens, concatenated, are exactly the non-whitespace characters of `s`, in order |
| Text.SplitAtSpace | build/sage_bootstrap/package.py:314 | splitting `a + [c] + b` at a whitespace `c` gives the tokens of `a` followed by those of `b` |
| Text.SplitPrependSpaces | build/sage_bootstrap/package.py:324 | whitespace in front of a string adds no token |
| Text.SplitAppendSpaces | build/sage_bootstrap/package.py:324 | whitespace after a string adds no token |
| Text.SplitStrip | build/sage_bootstrap/package.py:324 | `s.strip().split() == s.split()` |
| Text.SplitWord | build/sage_bootstrap/package.py:314 | a non-empty word without whitespace is its own and only token; with `SplitAtSpace` and `SplitAllSpace` this fixes `split()` completely |
| Text.NonSpaceStrip | build/sage_bootstrap/package.py:324 | `strip()` removes only whitespace: the non-whitespace characters are unchanged |
| Text.StrippedTokens | build/sage_bootstrap/package.py:324 | the tokens of `s.strip().split()`, concatenated, are the non-whitespace characters of `s` |
| Text.StrippedTokensAppend | build/sage_bootstrap/package.py:331 | the concatenated tokens of two stripped, split texts are the non-whitespace characters of the first followed by those of the second |
| Text.SplitAllSpace | build/sage_bootstrap/package.py:314 | a string of whitespace has no tokens |
| Text.SplitStrippedNonEmpty | build/sage_bootstrap/package.py:311-315 | a non-empty stripped line has a first token, and that token is a prefix of the line |
| Text.IndexOfChar | build/sage_bootstrap/package.py:324 | the index of the first occurrence of a character, `None` exactly when it does not occur |
| Text.SplitOn | build/sage_bootstrap/package.py:310 | `split('\n')` gives at least one field; no field holds the separator; joining the fields with the separator gives back `s` |
| Text.SplitOnJoin | build/sage_bootstrap/package.py:310 | joining separator-free fields and splitting again gives back the fields |
| Text.SplitOnCount | build/sage_bootstrap/package.py:310 | `split(sep)` has one field more than `s` has separators |
| Text.Partition | build/sage_bootstrap/package.py:324 | `partition('\|')`: the head holds no separator; `s == head + '\|' + tail` when the separator occurs, and the head is `s` and the tail empty otherwise |
| Text.SplitAvoids | build/sage_bootstrap/package.py:324 | a character absent from `s` is absent from every token of `s.split()` |
| Text.StripAvoids | build/sage_bootstrap/package.py:324 | a character absent from `s` is absent from `s.strip()` |
| Text.LineEnd | build/sage_bootstrap/package.py:378 | where a regular-expression `.*` stops: at the first newline, or at the end |
| Text.ReadLine | build/sage_bootstrap/package.py:434 | `readline()` is a prefix of the text holding at most a final newline; it ends with a newline when the text has one, and is the whole text otherwise |
| Text.LinesKeepEnds | build/sage_bootstrap/package.py:382 | every line of `readlines()` is non-empty with a newline at most at its end, and all but the last end with a newline |
| Text.LinesConcat | build/sage_bootstrap/package.py:382 | the lines of `readlines()`, concatenated, give back the text |
| Text.IndexOf | build/sage_bootstrap/package.py:139-144 | the first index at which `pat` occurs; `None` exactly when it occurs nowhere |
| Text.ContainsOccurs | build/sage_bootstrap/package.py:139-142 | `pat in s` holds exactly when `pat` occurs in `s` at some index |
| Text.ReplaceFirst | build/sage_bootstrap/package.py:141-144 | `replace(pat, value, 1)`: unchanged when `pat` does not occur; otherwise, at the first index where `pat` occurs, `pat` is cut out and `value` put in its place, the text around it unchanged |
| Checksums.KeyLength | build/sage_bootstrap/package.py:378 | the longest prefix of `[a-zA-Z0-9_]` characters |
| Checksums.MatchAssignment | build/sage_bootstrap/package.py:378-386 | on a match, the line starts with `key=value` where the key is made of `[a-zA-Z0-9_]` and the value is the rest of the first line; there is no match exactly when no key prefix is followed by `=` |
| Checksums.AssignmentRoundTrip | build/sage_bootstrap/package.py:378-386 | the line `key=value`, with or without a newline, gives back `(key, value)` |
| Checksums.ParseChecksums | build/sage_bootstrap/package.py:380-387 | the loop builds `Assignments(readlines())`: each matching line assigns its key in turn |
| Checksums.AssignmentsKeys | build/sage_bootstrap/package.py:380-387 | a key is in the dictionary exactly when some line assigns it |
| Checksums.AssigningLine | build/sage_bootstrap/package.py:380-387 | every key of the dictionary comes from a line that assigns it |
| Checksums.AssignedKeyPresent | build/sage_bootstrap/package.py:380-387 | a line that assigns a key puts it in the dictionary |
| Checksums.LastAssignmentWins | build/sage_bootstrap/package.py:386 | the value of a key is the one given by the last line that assigns it |
| Checksums.Get | build/sage_bootstrap/package.py:390-394 | `result.get(key, None)`: `None` exactly when the key is absent, otherwise its value |
| Versions.DigitRun | build/sage_bootstrap/package.py:398 | the length of the maximal run of digits that starts the text |
| Versions.DecimalValue | build/sage_bootstrap/package.py:414 | `int()` of a digit string is positive when the string starts with a non-zero digit, and `str()` of it gives back any digit string without a leading zero (or `"0"`) |
| Versions.DecimalString | build/sage_bootstrap/package.py:414 | the decimal writing of a number is a non-empty run of digits |
| Versions.DecimalRoundTrip | build/sage_bootstrap/package.py:414 | `int()` of the decimal writing of `n` is `n` |
| Versions.LastMarker | build/sage_bootstrap/package.py:398 | the last `.p<digit>` position before a bound, or none when there is none |
| Versions.MatchPatchlevel | build/sage_bootstrap/package.py:398 | on a match, the text starts with `version + ".p" + digits`, where the version holds no newline, the digit run is maximal and no later `.p<digit>` starts on the first line; there is no match exactly when no `.p<digit>` starts on the first line |
| Versions.MatchPatchlevelSuffix | build/sage_bootstrap/package.py:398 | `version + ".p" + digits` matches with exactly those groups |
| Versions.ParseVersion | build/sage_bootstrap/package.py:400-414 | a missing file gives no version and no patchlevel; otherwise the patchlevel is at least -1, and it is -1 exactly when the stripped text has no `.p<digits>` on its first line; then the version is the stripped text, and otherwise the version and patchlevel are the `version` group and `int()` of the `patchlevel` group of the match |
| Versions.ParseVersionNoPatchlevel | build/sage_bootstrap/package.py:408-410 | a text without a `.p<digit>` marker gives the stripped text and patchlevel -1 |
| Versions.ParseVersionRoundTrip | build/sage_bootstrap/package.py:411-414 | `version + ".p" + str(n)` gives back the version and `n` |
| Versions.VersionField | build/sage_bootstrap/package.py:260-282 | `version.split('.')[i]`: an error without a version; it succeeds exactly when the version has at least `i` dots; the field holds no dot |
| Versions.MajorOfUndottedVersion | build/sage_bootstrap/package.py:260 | with no `.`, the major version is the whole version and there is no minor version |
| Versions.FieldsOfDottedVersion | build/sage_bootstrap/package.py:260-282 | field `i` of `'.'.join(parts)` is `parts[i]` |
| Versions.FieldChars | build/sage_bootstrap/package.py:260-282 | every character of a field is a character of the version |
| Substitution.TokenContainsVersion | build/sage_bootstrap/package.py:136-142 | a pattern that holds any variable, bare or braced, holds `VERSION` |
| Substitution.Value | build/sage_bootstrap/package.py:140-143 | `getattr(self, var.lower())`: an error without a version; `VERSION` is the whole version; a field succeeds exactly when the version has enough dots, and holds no dot |
| Substitution.Replace | build/sage_bootstrap/package.py:139-144 | fails exactly when, and as, getting the value does; on success the step is marked as substituting, and the pattern changes length by the value's length minus the token's |
| Substitution.SubstituteFrom | build/sage_bootstrap/package.py:136-145 | a step that substitutes nothing returns the pattern unchanged |
| Substitution.SubstituteFromNothing | build/sage_bootstrap/package.py:136-145 | the loop over the variables substitutes nothing exactly when none of their names occurs in the pattern |
| Substitution.SubstituteOnce | build/sage_bootstrap/package.py:124-145 | the pattern is returned unchanged with the flag false exactly when `VERSION` does not occur; otherwise one step substitutes or fails |
| Substitution.SubstituteOnceSelects | build/sage_bootstrap/package.py:136-144 | one step replaces the first occurrence of the selected token (the first variable in the order MAJOR, MINOR, MICRO, VERSION whose name occurs, braced when the braced form occurs) by that variable's value |
| Substitution.Selection | build/sage_bootstrap/package.py:136-144 | a pattern that holds `VERSION` has a selection |
| Substitution.SelectionUnique | build/sage_bootstrap/package.py:136-144 | any selection is the one `Selection` gives, so a pattern has only one |
| Substitution.SkipAbsent | build/sage_bootstrap/package.py:136-144 | a variable whose name does not occur is passed over |
| Substitution.ReplaceFirstSplits | build/sage_bootstrap/package.py:141-144 | `replace(token, value, 1)` puts the value in place of the first occurrence and keeps the text around it |
| Substitution.BareVersionNotPartOfLongerName | build/sage_bootstrap/package.py:136-137 | when bare `VERSION` is replaced, the occurrence is not the start of a longer variable name |
| Substitution.MajorBeforeVersion | build/sage_bootstrap/package.py:136-144 | an illustration of `SubstituteOnceSelects`: `VERSION_MAJOR` with version `1.2` becomes `1`, not `1.2_MAJOR` |
| Substitution.ValueHasNoV | build/sage_bootstrap/package.py:140-143 | a value substituted for a variable holds no `V` when the version holds none |
| Substitution.ReplaceRemovesV | build/sage_bootstrap/package.py:141-144 | replacing a token with a `V` by such a value lowers the number of `V`s |
| Substitution.StepFromRemovesV | build/sage_bootstrap/package.py:155-157 | every substituting step lowers the number of `V`s, so the loop ends |
| Substitution.SubstituteAll | build/sage_bootstrap/package.py:147-158 | the repeated substitution, when it succeeds, leaves no `VERSION` in the pattern |
| Substitution.SubstituteAllUnchanged | build/sage_bootstrap/package.py:155-158 | a pattern without `VERSION` comes back unchanged |
| Substitution.SubstituteFromWithoutVersion | build/sage_bootstrap/package.py:136-144 | with no version, a step on a pattern that holds `VERSION` fails |
| Substitution.SubstituteAllWithoutVersion | build/sage_bootstrap/package.py:147-158 | with no version, expanding a pattern that holds `VERSION` fails |
| Substitution.SubstituteFromSucceeds | build/sage_bootstrap/package.py:136-144 | a version with at least two dots makes every step succeed |
| Substitution.SubstituteAllSucceeds | build/sage_bootstrap/package.py:147-158 | a version with at least two dots and no `V` makes the expansion succeed |
| Substitution.SelfReferentialVersionLoops | build/sage_bootstrap/package.py:147-158 | with version `VERSION`, the pattern `VERSION` substitutes to itself, so the loop of the source never ends |
| Packages.ReadType | build/sage_bootstrap/package.py:416-422 | a missing file is an error; otherwise it succeeds exactly when the stripped text is one of `base`, `standard`, `optional`, `experimental`, with that word as the type |
| Packages.FirstRequirement | build/sage_bootstrap/package.py:310-316 | the result is a non-empty token without whitespace that does not start with `#`; it is `None` exactly when no line, once stripped, is non-empty and not a comment |
| Packages.FirstRequirementLine | build/sage_bootstrap/package.py:310-316 | the token found is the first token of the first such line |
| Packages.ExpandPattern | build/sage_bootstrap/package.py:186-191 | `None` exactly for a missing or empty pattern; an expanded pattern holds no `VERSION` |
| Packages.Package.constructor | build/sage_bootstrap/package.py:44 | the package has the given name |
| Packages.Package.Open | build/sage_bootstrap/package.py:28-50 | fails exactly when, and as, the `type` file does; otherwise a new package whose fields are those the five `_init_*` steps read from the files |
| Packages.Package.InitMetadata | build/sage_bootstrap/package.py:46-48 | the first three steps: the checksum fields, the version fields, and the type or its error |
| Packages.Package.InitChecksum | build/sage_bootstrap/package.py:373-394 | the five fields are the dictionary's `md5`, `sha1`, `cksum`, `tarball` and `upstream_url` entries, or `None` |
| Packages.Package.InitVersion | build/sage_bootstrap/package.py:400-414 | version and patchlevel are those `ParseVersion` gives |
| Packages.Package.InitRequirements | build/sage_bootstrap/package.py:49-50 | the last two steps: the install requirements and the dependency lines |
| Packages.Package.InitType | build/sage_bootstrap/package.py:416-422 | the type is set when it is valid; otherwise the error is reported |
| Packages.Package.InitInstallRequires | build/sage_bootstrap/package.py:424-429 | the stripped text, or `None` for a missing file |
| Packages.Package.InitDependencies | build/sage_bootstrap/package.py:431-446 | the stripped first lines of `dependencies` and `dependencies_check`, and the unstripped first line of `dependencies_order_only`; `''` for a missing file |
| Packages.Package.VersionMajor | build/sage_bootstrap/package.py:252-260 | an error exactly without a version; the whole version when it has no `.` |
| Packages.Package.VersionMinor | build/sage_bootstrap/package.py:263-271 | succeeds exactly when the version has at least one `.` |
| Packages.Package.VersionMicro | build/sage_bootstrap/package.py:274-282 | succeeds exactly when the version has at least two `.` |
| Packages.Package.DistributionName | build/sage_bootstrap/package.py:304-316 | the loop returns the first token of the first stripped line that is neither blank nor a comment, or `None` |
| Packages.Package.Dependencies | build/sage_bootstrap/package.py:319-324 | the tokens are non-empty and hold neither whitespace nor `\|`; concatenated they are the non-whitespace characters of the line before its first `\|` |
| Packages.Package.DependenciesOrderOnly | build/sage_bootstrap/package.py:327-331 | the tokens are non-empty and hold no whitespace; concatenated they are the non-whitespace characters after the first `\|` of the dependencies line, then those of the order-only line |
| Packages.Package.DependenciesCheck | build/sage_bootstrap/package.py:334-338 | the check dependencies end the order-only list, and concatenated they are the non-whitespace characters of the order-only line |
| Packages.Package.SubstituteVariables | build/sage_bootstrap/package.py:147-158 | the `while not_done` loop computes `SubstituteAll`, so its result holds no `VERSION` |
| Packages.Package.TarballFilename | build/sage_bootstrap/package.py:176-191 | `None` for a missing or empty pattern, otherwise the expanded pattern |
| Packages.Package.TarballUpstreamUrl | build/sage_bootstrap/package.py:206-218 | `None` for a missing or empty pattern, otherwise the expanded pattern |

## Left out

- File access is left out. Each file is an input text, or `None` where `open` raises `IOError`. Text-mode newline translation is taken as already done.
- `os.path.realpath` and `__tarball_package_name` are left out. They depend on the file system.
- `path`, `has_file` and `all()` are left out. They depend on the file system and on `SAGE_ROOT`.
- The `tarball` property, `Tarball` objects, `__eq__` (which compares tarballs) and `tarball_package` are left out. `Tarball` is not part of this model.
- Logging and `__repr__` are left out.
- Getters that only return a field (`name`, `md5`, `sha1`, `cksum`, `tarball_pattern`, `tarball_upstream_url_pattern`, `version`, `patchlevel`, `type`) are not separate members. They are the fields themselves.
- The kind of exception is not kept. `AttributeError`, `TypeError` and `IndexError` become `FieldError`. A missing `type` file (`IOError`) and an unknown type (`AssertionError`) become `LoadError`.
- Python's `-O` flag, which would skip the `assert` in `_init_type`, is not modelled.
- Packages.Package.SubstituteVariables: requires that the version holds no `V`, which the source does not. Without that, the source's loop need not end; `SelfReferentialVersionLoops` shows a case that never ends.
- Packages.Package.TarballFilename: requires that the version holds no `V`, for the same reason.
- Packages.Package.TarballUpstreamUrl: requires that the version holds no `V`, for the same reason.
- Packages.ExpandPattern: requires that the version holds no `V`, for the same reason.
- Substitution.SubstituteAll: requires that the version holds no `V`, which is its termination measure.
- Versions.MatchPatchlevel follows the code. `.` in the regular expression does not match a newline, so only a `.p<digits>` on the first line of the stripped text counts, and the last one there is used.
- The `dependencies_check` file is read into a field that nothing uses. `dependencies_check` returns the tokens of the `dependencies_order_only` file, as the code does.
- Python 2 byte-string semantics are not modelled. `strip()` and `split()` use Python 3's whitespace set, which also covers non-ASCII whitespace such as U+00A0 and U+3000.
