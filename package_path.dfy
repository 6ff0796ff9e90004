/** Resolution of the file name of a mesh referenced by a robot description
    (`expand_package_path`): a `package://<pkg>/` reference is re-rooted at
    the directory a package locator reports for `<pkg>`; any other reference
    is joined onto the directory of the description file. */
module PackagePath {
  import opened Wrappers
  import opened Paths

  const PACKAGE_SCHEME: string := "package://"

  datatype ResolveError =
    /** The locator could not find the package; the source panics here. */
    PackageNotFound(package: string)

  /** `\w` of the regular expression, restricted to ASCII. */
  predicate IsWordChar(c: char) {
    ('a' <= c <= 'z') || ('A' <= c <= 'Z') || ('0' <= c <= '9') || c == '_'
  }

  /** What `(\w+)` can capture. */
  predicate IsPackageName(s: string) {
    s != [] && forall k :: 0 <= k < |s| ==> IsWordChar(s[k])
  }

  /** Length of the longest run of word characters `s` starts with: what the
      greedy `\w+` consumes. */
  function WordPrefixLength(s: string): (n: nat)
    ensures n <= |s|
    ensures forall k :: 0 <= k < n ==> IsWordChar(s[k])
    ensures n < |s| ==> !IsWordChar(s[n])
  {
    if s != [] && IsWordChar(s[0]) then 1 + WordPrefixLength(s[1..]) else 0
  }

  /** The greedy `\w+` stops exactly at the separator that ends a package name. */
  lemma {:induction false} WordPrefixOfPackage(package: string, rest: string)
    requires IsPackageName(package)
    ensures WordPrefixLength(package + [SEPARATOR] + rest) == |package|
  {
    var s := package + [SEPARATOR] + rest;
    assert s[0] == package[0];
    if |package| > 1 {
      assert s[1..] == package[1..] + [SEPARATOR] + rest;
      WordPrefixOfPackage(package[1..], rest);
    } else {
      assert s[1..] == [SEPARATOR] + rest;
    }
  }

  /** The match of `^package://(\w+)/`: the captured package name and the text
      after the match, or None when the pattern does not match. */
  function MatchPackageUri(filename: string): (m: Option<(string, string)>)
    ensures m.Some? ==> IsPackageName(m.value.0)
                        && filename == PACKAGE_SCHEME + m.value.0 + [SEPARATOR] + m.value.1
  {
    if StartsWith(filename, PACKAGE_SCHEME) then
      var tail := filename[|PACKAGE_SCHEME|..];
      var n := WordPrefixLength(tail);
      if 0 < n < |tail| && tail[n] == SEPARATOR then
        assert tail == tail[..n] + [SEPARATOR] + tail[n + 1..];
        assert filename == PACKAGE_SCHEME + tail;
        Some((tail[..n], tail[n + 1..]))
      else None
    else None
  }

  /** `expand_package_path(filename, base_dir)` with `rospack find` passed in
      as `locate`. A matched package reference has its `package://<pkg>/`
      replaced by the located directory and a separator; a locator miss is
      the source's panic; a `package://` name the pattern does not match is
      returned as it is; everything else is pushed onto `baseDir`. */
  function ExpandPackagePath(filename: string, baseDir: string, locate: string -> Option<string>): (r: Result<string, ResolveError>)
    ensures r.Failure? ==>
              StartsWith(filename, PACKAGE_SCHEME + r.error.package + [SEPARATOR])
              && IsPackageName(r.error.package) && locate(r.error.package).None?
    ensures !StartsWith(filename, PACKAGE_SCHEME) ==>
              r.Success? && EndsWith(r.value, filename)
              && (!IsAbsolute(filename) ==> StartsWith(r.value, baseDir))
  {
    if StartsWith(filename, PACKAGE_SCHEME) then
      match MatchPackageUri(filename)
      case None => Success(filename)
      case Some((package, rest)) =>
        MatchedPrefix(filename);
        match locate(package)
        case Some(foundPath) => Success(foundPath + [SEPARATOR] + rest)
        case None => Failure(PackageNotFound(package))
    else
      Success(Push(baseDir, filename))
  }

  /** A successful match splits the name into scheme, package, separator and
      rest. */
  lemma MatchedPrefix(filename: string)
    requires MatchPackageUri(filename).Some?
    ensures var (package, rest) := MatchPackageUri(filename).value;
            IsPackageName(package)
            && filename == PACKAGE_SCHEME + package + [SEPARATOR] + rest
            && StartsWith(filename, PACKAGE_SCHEME + package + [SEPARATOR])
  {
    var (package, rest) := MatchPackageUri(filename).value;
    var tail := filename[|PACKAGE_SCHEME|..];
    var n := |package|;
    assert tail == package + [SEPARATOR] + rest;
    assert filename == PACKAGE_SCHEME + tail;
    assert (PACKAGE_SCHEME + package + [SEPARATOR] + rest)[..|PACKAGE_SCHEME + package + [SEPARATOR]|]
        == PACKAGE_SCHEME + package + [SEPARATOR];
  }

  /** The regular expression matches exactly the names built as
      `package://<pkg>/<rest>` from a package name, and then captures `<pkg>`
      and leaves `<rest>`. */
  lemma MatchPackageUriExact(filename: string, package: string, rest: string)
    ensures MatchPackageUri(filename) == Some((package, rest)) <==>
            IsPackageName(package) && filename == PACKAGE_SCHEME + package + [SEPARATOR] + rest
  {
    if MatchPackageUri(filename) == Some((package, rest)) {
      MatchedPrefix(filename);
    }
    if IsPackageName(package) && filename == PACKAGE_SCHEME + package + [SEPARATOR] + rest {
      var tail := package + [SEPARATOR] + rest;
      assert filename[..|PACKAGE_SCHEME|] == PACKAGE_SCHEME;
      assert filename[|PACKAGE_SCHEME|..] == tail;
      WordPrefixOfPackage(package, rest);
      var n := |package|;
      assert tail[..n] == package && tail[n + 1..] == rest;
    }
  }

  /** A name outside the package scheme resolves to the base directory pushed
      with the name, whose file name it keeps; e.g. base `/home/user` with
      `mesh/aaa.obj` gives `/home/user/mesh/aaa.obj`. */
  lemma ExpandRelativeJoinsBase(filename: string, baseDir: string, locate: string -> Option<string>)
    requires !StartsWith(filename, PACKAGE_SCHEME)
    ensures ExpandPackagePath(filename, baseDir, locate) == Success(Push(baseDir, filename))
    ensures FileName(filename).Some? ==>
              FileName(ExpandPackagePath(filename, baseDir, locate).value) == FileName(filename)
  {
    if FileName(filename).Some? && !IsAbsolute(filename) {
      if baseDir != [] && baseDir[|baseDir| - 1] != SEPARATOR {
        assert Push(baseDir, filename) == (baseDir + [SEPARATOR]) + filename;
        FileNameUnderDirectory(baseDir + [SEPARATOR], filename);
      } else {
        FileNameUnderDirectory(baseDir, filename);
      }
    }
  }

  /** The example of the source's unit test. */
  lemma ExpandRelativeExample(locate: string -> Option<string>)
    ensures ExpandPackagePath("mesh/aaa.obj", "/home/user", locate) == Success("/home/user/mesh/aaa.obj")
  {
    assert !StartsWith("mesh/aaa.obj", PACKAGE_SCHEME) by {
      assert "mesh/aaa.obj"[0] != PACKAGE_SCHEME[0];
    }
    assert !IsAbsolute("mesh/aaa.obj");
    assert "/home/user" + [SEPARATOR] + "mesh/aaa.obj" == "/home/user/mesh/aaa.obj";
  }

  /** `package://<pkg>/<rest>` resolves to `D/<rest>` when the locator finds
      `<pkg>` in `D`, and fails naming `<pkg>` when it does not, whatever the
      base directory. */
  lemma ExpandPackageUri(package: string, rest: string, baseDir: string, locate: string -> Option<string>)
    requires IsPackageName(package)
    ensures var r := ExpandPackagePath(PACKAGE_SCHEME + package + [SEPARATOR] + rest, baseDir, locate);
            match locate(package)
            case Some(dir) => r == Success(dir + [SEPARATOR] + rest)
            case None => r == Failure(PackageNotFound(package))
  {
    var filename := PACKAGE_SCHEME + package + [SEPARATOR] + rest;
    MatchPackageUriExact(filename, package, rest);
    assert filename[..|PACKAGE_SCHEME|] == PACKAGE_SCHEME;
  }

  /** A `package://` name that is not `package://<pkg>/<rest>` for any package
      name `<pkg>` is returned unchanged; it is not joined onto the base
      directory. */
  lemma ExpandUnmatchedPackageUnchanged(filename: string, baseDir: string, locate: string -> Option<string>)
    requires StartsWith(filename, PACKAGE_SCHEME)
    requires forall package, rest ::
               IsPackageName(package) ==> filename != PACKAGE_SCHEME + package + [SEPARATOR] + rest
    ensures ExpandPackagePath(filename, baseDir, locate) == Success(filename)
  {
    if MatchPackageUri(filename).Some? {
      var (package, rest) := MatchPackageUri(filename).value;
      MatchPackageUriExact(filename, package, rest);
      assert false;
    }
  }
}
