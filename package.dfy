/** A Sage package: the metadata files of its directory under
    ``build/pkgs/``, read into fields, and the values derived from them.
    Each file arrives as its text, or ``None`` when the file is missing. */
module Packages {
  import opened Wrappers
  import opened Text
  import opened Checksums
  import opened Versions
  import opened Substitution

  /** The texts of the metadata files of one package directory. */
  datatype PackageFiles = PackageFiles(
    checksumsIni: Option<string>,
    packageVersion: Option<string>,
    packageType: Option<string>,
    installRequires: Option<string>,
    dependencies: Option<string>,
    dependenciesCheck: Option<string>,
    dependenciesOrderOnly: Option<string>)

  /** Why a package cannot be opened: its ``type`` file is missing, or
      holds a word that is not a package type. */
  datatype LoadError = TypeFileMissing | UnknownType(word: string)

  const PackageTypes: seq<string> := ["base", "standard", "optional", "experimental"]

  /** The check of ``_init_type``. */
  function ReadType(content: Option<string>): (r: Result<string, LoadError>)
    ensures content.None? ==> r == Err(TypeFileMissing)
    ensures r.Ok? <==> content.Some? && Strip(content.value) in PackageTypes
    ensures r.Ok? ==> r.value == Strip(content.value)
    ensures content.Some? && r.Err? ==> r.error == UnknownType(Strip(content.value))
  {
    match content
    case None => Err(TypeFileMissing)
    case Some(text) =>
      var word := Strip(text);
      if word in PackageTypes then Ok(word) else Err(UnknownType(word))
  }

  /** ``f.read().strip()``, or ``None`` when the file is missing. */
  function StrippedText(content: Option<string>): Option<string> {
    match content
    case None => None
    case Some(text) => Some(Strip(text))
  }

  /** ``f.readline().strip()``, or ``''`` when the file is missing. */
  function StrippedFirstLine(content: Option<string>): string {
    match content
    case None => []
    case Some(text) => Strip(ReadLine(text))
  }

  /** ``f.readline()``, or ``''`` when the file is missing. */
  function FirstLine(content: Option<string>): string {
    match content
    case None => []
    case Some(text) => ReadLine(text)
  }

  /** A line of ``install-requires.txt`` that names a distribution: once
      stripped it is not empty and is not a comment. */
  predicate Usable(line: string) {
    var t := Strip(line);
    t != [] && t[0] != '#'
  }

  /** The first token of the first usable line. */
  function FirstRequirement(lines: seq<string>): (r: Option<string>)
    ensures r.Some? ==> r.value != [] && NoSpace(r.value) && r.value[0] != '#'
    ensures r.None? <==> forall j :: 0 <= j < |lines| ==> !Usable(lines[j])
  {
    if lines == [] then None
    else if Usable(lines[0]) then
      var t := Strip(lines[0]);
      SplitStrippedNonEmpty(t);
      Some(Split(t)[0])
    else FirstRequirement(lines[1..])
  }

  /** The requirement found is the first token of the first usable line. */
  lemma {:induction false} FirstRequirementLine(lines: seq<string>) returns (j: nat)
    requires FirstRequirement(lines).Some?
    ensures j < |lines| && Usable(lines[j])
    ensures forall i :: 0 <= i < j ==> !Usable(lines[i])
    ensures Split(Strip(lines[j])) != [] && FirstRequirement(lines).value == Split(Strip(lines[j]))[0]
  {
    if Usable(lines[0]) {
      SplitStrippedNonEmpty(Strip(lines[0]));
      j := 0;
    } else {
      var k := FirstRequirementLine(lines[1..]);
      j := k + 1;
      UnusableBefore(lines, k);
      assert lines[j] == lines[1..][k];
    }
  }

  lemma UnusableBefore(lines: seq<string>, k: nat)
    requires k < |lines| - 1 && !Usable(lines[0])
    requires forall i :: 0 <= i < k ==> !Usable(lines[1..][i])
    ensures forall i :: 0 <= i <= k ==> !Usable(lines[i])
  {
    forall i | 0 < i <= k
      ensures !Usable(lines[i])
    {
      assert lines[i] == lines[1..][i - 1];
    }
  }

  /** What ``distribution_name`` returns for the stored
      ``install-requires.txt`` text. */
  function DistributionNameOf(installRequires: Option<string>): Option<string> {
    match installRequires
    case None => None
    case Some(text) => FirstRequirement(SplitOn(text, '\n'))
  }

  /** The value of a pattern property once expanded: ``None`` for a
      missing or empty pattern, otherwise the expanded pattern. */
  function ExpandPattern(pattern: Option<string>, version: Option<string>): (r: Result<Option<string>, FieldError>)
    requires NoV(version)
    ensures r == Ok(None) <==> pattern.None? || pattern.value == []
    ensures r.Ok? && r.value.Some? ==> !Contains(r.value.value, "VERSION")
  {
    if pattern.None? || pattern.value == [] then Ok(None)
    else
      match SubstituteAll(pattern.value, version)
      case Err(e) => Err(e)
      case Ok(s) => Ok(Some(s))
  }

  class Package {
    const name: string
    var md5: Option<string>
    var sha1: Option<string>
    var cksum: Option<string>
    var tarballPattern: Option<string>
    var tarballUpstreamUrlPattern: Option<string>
    var version: Option<string>
    var patchlevel: Option<int>
    var packageType: string
    var installRequires: Option<string>
    var dependenciesLine: string
    var dependenciesCheckLine: string
    var dependenciesOrderOnlyLine: string

    /** Every field holds what the metadata files say. */
    ghost predicate Loaded(name: string, files: PackageFiles)
      reads this
    {
      && this.name == name
      && ChecksumsRead(Assignments(ChecksumLines(files.checksumsIni)))
      && VersionRead(ParseVersion(files.packageVersion))
      && ReadType(files.packageType) == Ok(packageType)
      && installRequires == StrippedText(files.installRequires)
      && DependenciesRead(StrippedFirstLine(files.dependencies), StrippedFirstLine(files.dependenciesCheck),
                          FirstLine(files.dependenciesOrderOnly))
    }

    /** The fields ``_init_checksum`` sets from the dictionary it builds. */
    ghost predicate ChecksumsRead(sums: map<string, string>)
      reads this`md5, this`sha1, this`cksum, this`tarballPattern, this`tarballUpstreamUrlPattern
    {
      && md5 == Get(sums, "md5")
      && sha1 == Get(sums, "sha1")
      && cksum == Get(sums, "cksum")
      && tarballPattern == Get(sums, "tarball")
      && tarballUpstreamUrlPattern == Get(sums, "upstream_url")
    }

    ghost predicate VersionRead(info: VersionInfo)
      reads this`version, this`patchlevel
    {
      version == info.version && patchlevel == info.patchlevel
    }

    ghost predicate DependenciesRead(dependencies: string, check: string, orderOnly: string)
      reads this`dependenciesLine, this`dependenciesCheckLine, this`dependenciesOrderOnlyLine
    {
      && dependenciesLine == dependencies
      && dependenciesCheckLine == check
      && dependenciesOrderOnlyLine == orderOnly
    }

    /** The first step of ``__init__``: record the name. The other fields hold
        placeholders (an empty type, which no opened package has) until
        the steps of ``Open`` assign them; only ``Open`` makes packages. */
    constructor (name: string)
      ensures this.name == name
    {
      this.name := name;
      md5, sha1, cksum := None, None, None;
      tarballPattern, tarballUpstreamUrlPattern := None, None;
      version, patchlevel := None, None;
      packageType := [];
      installRequires := None;
      dependenciesLine, dependenciesCheckLine, dependenciesOrderOnlyLine := [], [], [];
    }

    /** ``Package(name)``: the fields read from the files in the order of
        the ``_init_*`` steps, failing as ``_init_type`` does. */
    static method Open(name: string, files: PackageFiles) returns (r: Result<Package, LoadError>)
      ensures r.Err? <==> ReadType(files.packageType).Err?
      ensures r.Err? ==> r.error == ReadType(files.packageType).error
      ensures r.Ok? ==> fresh(r.value) && r.value.Loaded(name, files)
    {
      var p := new Package(name);
      var failure := p.InitMetadata(files);
      if failure.Some? {
        return Err(failure.value);
      }
      p.InitRequirements(files);
      return Ok(p);
    }

    /** The first three steps of ``__init__``: the checksums, the version
        and the type, which is the step that can fail. */
    method InitMetadata(files: PackageFiles) returns (failure: Option<LoadError>)
      modifies this`md5, this`sha1, this`cksum, this`tarballPattern, this`tarballUpstreamUrlPattern
      modifies this`version, this`patchlevel, this`packageType
      ensures ChecksumsRead(Assignments(ChecksumLines(files.checksumsIni)))
      ensures VersionRead(ParseVersion(files.packageVersion))
      ensures failure.None? <==> ReadType(files.packageType).Ok?
      ensures failure.None? ==> packageType == ReadType(files.packageType).value
      ensures failure.Some? ==> failure.value == ReadType(files.packageType).error
    {
      ghost var sums := Assignments(ChecksumLines(files.checksumsIni));
      InitChecksum(files.checksumsIni);
      InitVersion(files.packageVersion);
      assert ChecksumsRead(sums);
      failure := InitType(files.packageType);
    }

    /** ``_init_checksum``: the checksums and the two patterns. */
    method InitChecksum(content: Option<string>)
      modifies this`md5, this`sha1, this`cksum, this`tarballPattern, this`tarballUpstreamUrlPattern
      ensures ChecksumsRead(Assignments(ChecksumLines(content)))
    {
      var result := ParseChecksums(content);
      md5 := Get(result, "md5");
      sha1 := Get(result, "sha1");
      cksum := Get(result, "cksum");
      tarballPattern := Get(result, "tarball");
      tarballUpstreamUrlPattern := Get(result, "upstream_url");
    }

    /** ``_init_version``. */
    method InitVersion(content: Option<string>)
      modifies this`version, this`patchlevel
      ensures VersionRead(ParseVersion(content))
    {
      var info := ParseVersion(content);
      version, patchlevel := info.version, info.patchlevel;
    }

    /** ``_init_type``: records the type, or reports why it cannot. */
    method InitType(content: Option<string>) returns (failure: Option<LoadError>)
      modifies this`packageType
      ensures failure.None? <==> ReadType(content).Ok?
      ensures failure.None? ==> packageType == ReadType(content).value
      ensures failure.Some? ==> failure.value == ReadType(content).error
    {
      match ReadType(content)
      case Ok(word) =>
        packageType := word;
        failure := None;
      case Err(e) =>
        failure := Some(e);
    }

    /** ``_init_install_requires``. */
    /** The last two steps of ``__init__``: the install requirements and
        the dependency lines, neither of which can fail. */
    method InitRequirements(files: PackageFiles)
      modifies this`installRequires
      modifies this`dependenciesLine, this`dependenciesCheckLine, this`dependenciesOrderOnlyLine
      ensures installRequires == StrippedText(files.installRequires)
      ensures DependenciesRead(StrippedFirstLine(files.dependencies), StrippedFirstLine(files.dependenciesCheck), FirstLine(files.dependenciesOrderOnly))
    {
      InitInstallRequires(files.installRequires);
      InitDependencies(files.dependencies, files.dependenciesCheck, files.dependenciesOrderOnly);
    }

    method InitInstallRequires(content: Option<string>)
      modifies this`installRequires
      ensures installRequires == StrippedText(content)
    {
      if content.None? {
        installRequires := None;
      } else {
        installRequires := Some(Strip(content.value));
      }
    }

    /** ``_init_dependencies``: the first line of each dependency file;
        the order-only line is kept unstripped. */
    method InitDependencies(dependencies: Option<string>, check: Option<string>, orderOnly: Option<string>)
      modifies this`dependenciesLine, this`dependenciesCheckLine, this`dependenciesOrderOnlyLine
      ensures DependenciesRead(StrippedFirstLine(dependencies), StrippedFirstLine(check), FirstLine(orderOnly))
    {
      dependenciesLine := StrippedFirstLine(dependencies);
      dependenciesCheckLine := StrippedFirstLine(check);
      dependenciesOrderOnlyLine := FirstLine(orderOnly);
    }

    /** ``version_major``: the text before the first ``.``, the whole
        version when it has no ``.``. */
    function VersionMajor(): (r: Result<string, FieldError>)
      reads this
      ensures version.None? <==> r.Err?
      ensures version.Some? && '.' !in version.value ==> r == Ok(version.value)
    {
      if version.Some? && '.' !in version.value then
        MajorOfUndottedVersion(version.value);
        VersionField(version, 0)
      else
        VersionField(version, 0)
    }

    /** ``version_minor``: the second ``.``-separated field. */
    function VersionMinor(): (r: Result<string, FieldError>)
      reads this
      ensures r.Ok? <==> version.Some? && Count(version.value, '.') >= 1
    {
      VersionField(version, 1)
    }

    /** ``version_micro``: the third ``.``-separated field. */
    function VersionMicro(): (r: Result<string, FieldError>)
      reads this
      ensures r.Ok? <==> version.Some? && Count(version.value, '.') >= 2
    {
      VersionField(version, 2)
    }

    /** ``distribution_name``: the first token of the first line of
        ``install-requires.txt`` that is neither blank nor a comment. */
    method DistributionName() returns (r: Option<string>)
      ensures r == DistributionNameOf(installRequires)
    {
      if installRequires.None? {
        return None;
      }
      var lines := SplitOn(installRequires.value, '\n');
      var i := 0;
      while i < |lines|
        invariant 0 <= i <= |lines|
        invariant FirstRequirement(lines[i..]) == FirstRequirement(lines)
      {
        assert lines[i..][0] == lines[i] && lines[i..][1..] == lines[i + 1..];
        var line := Strip(lines[i]);
        if line != [] && line[0] == '#' {
          i := i + 1;
          continue;
        }
        var parts := Split(line);
        if parts != [] {
          return Some(parts[0]);
        }
        i := i + 1;
      }
      return None;
    }

    /** ``dependencies``: the tokens before the first ``|``. */
    function Dependencies(): (r: seq<string>)
      reads this
      ensures forall k :: 0 <= k < |r| ==> r[k] != [] && NoSpace(r[k]) && '|' !in r[k]
      ensures Concat(r) == NonSpace(Partition(dependenciesLine, '|').0)
    {
      var before := Partition(dependenciesLine, '|').0;
      StrippedTokens(before);
      StripAvoids(before, '|');
      SplitAvoids(Strip(before), '|');
      Split(Strip(before))
    }

    /** ``dependencies_order_only``: the tokens after the first ``|``,
        then those of the ``dependencies_order_only`` file. */
    function DependenciesOrderOnly(): (r: seq<string>)
      reads this
      ensures forall k :: 0 <= k < |r| ==> r[k] != [] && NoSpace(r[k])
      ensures Concat(r) == NonSpace(Partition(dependenciesLine, '|').1) + NonSpace(dependenciesOrderOnlyLine)
    {
      var after := Partition(dependenciesLine, '|').1;
      StrippedTokensAppend(after, dependenciesOrderOnlyLine);
      Split(Strip(after)) + Split(Strip(dependenciesOrderOnlyLine))
    }

    /** ``dependencies_check``: the tokens of the
        ``dependencies_order_only`` file, which end the order-only list. */
    function DependenciesCheck(): (r: seq<string>)
      reads this
      ensures |r| <= |DependenciesOrderOnly()|
      ensures DependenciesOrderOnly()[|DependenciesOrderOnly()| - |r|..] == r
      ensures Concat(r) == NonSpace(dependenciesOrderOnlyLine)
    {
      StrippedTokens(dependenciesOrderOnlyLine);
      Split(Strip(dependenciesOrderOnlyLine))
    }

    /** ``_substitute_variables``: repeat one step while it substitutes. */
    method SubstituteVariables(pattern: string) returns (r: Result<string, FieldError>)
      requires NoV(version)
      ensures r == SubstituteAll(pattern, version)
      ensures r.Ok? ==> !Contains(r.value, "VERSION")
    {
      var current := pattern;
      var notDone := true;
      while notDone
        invariant SubstituteAll(pattern, version)
                  == if notDone then SubstituteAll(current, version) else Ok(current)
        decreases Count(current, 'V'), notDone
      {
        var step := SubstituteOnce(current, version);
        if step.Err? {
          return Err(step.error);
        }
        if step.value.substituted {
          StepFromRemovesV(current, version, Order);
        }
        current, notDone := step.value.pattern, step.value.substituted;
      }
      return Ok(current);
    }

    /** ``tarball_filename``. */
    method TarballFilename() returns (r: Result<Option<string>, FieldError>)
      requires NoV(version)
      ensures r == ExpandPattern(tarballPattern, version)
    {
      if tarballPattern.None? || tarballPattern.value == [] {
        return Ok(None);
      }
      var expanded := SubstituteVariables(tarballPattern.value);
      if expanded.Err? {
        return Err(expanded.error);
      }
      return Ok(Some(expanded.value));
    }

    /** ``tarball_upstream_url``. */
    method TarballUpstreamUrl() returns (r: Result<Option<string>, FieldError>)
      requires NoV(version)
      ensures r == ExpandPattern(tarballUpstreamUrlPattern, version)
    {
      if tarballUpstreamUrlPattern.None? || tarballUpstreamUrlPattern.value == [] {
        return Ok(None);
      }
      var expanded := SubstituteVariables(tarballUpstreamUrlPattern.value);
      if expanded.Err? {
        return Err(expanded.error);
      }
      return Ok(Some(expanded.value));
    }
  }
}
