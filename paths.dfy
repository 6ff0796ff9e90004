/** The parts of Rust's `std::path` (Unix flavour) that the viewer relies on,
    written over plain strings: `PathBuf::push`, `Path::file_name`,
    `Path::extension`, `Path::file_stem` and `Path::with_extension`. */
module Paths {
  import opened Wrappers

  const SEPARATOR: char := '/'

  predicate StartsWith(s: string, prefix: string) {
    |prefix| <= |s| && s[..|prefix|] == prefix
  }

  predicate EndsWith(s: string, suffix: string) {
    |suffix| <= |s| && s[|s| - |suffix|..] == suffix
  }

  /** A path with a root; on Unix the only kind `PathBuf::push` treats as absolute. */
  predicate IsAbsolute(p: string) {
    p != [] && p[0] == SEPARATOR
  }

  /** Index of the last occurrence of `c` in `s`, or -1 when there is none. */
  function LastIndexOf(s: string, c: char): (r: int)
    ensures -1 <= r < |s|
    ensures r >= 0 ==> s[r] == c
    ensures forall k :: r < k < |s| ==> s[k] != c
  {
    if s == [] then -1
    else if s[|s| - 1] == c then |s| - 1
    else LastIndexOf(s[..|s| - 1], c)
  }

  /** `s` without the separators it ends with (Rust ignores trailing separators
      when it splits a path into components). */
  function StripTrailingSeparators(s: string): (r: string)
    ensures |r| <= |s| && r == s[..|r|]
    ensures r == [] || r[|r| - 1] != SEPARATOR
    ensures forall k :: |r| <= k < |s| ==> s[k] == SEPARATOR
  {
    if s != [] && s[|s| - 1] == SEPARATOR then StripTrailingSeparators(s[..|s| - 1]) else s
  }

  /** `PathBuf::push(path)` on Unix: an absolute `path` replaces `base`;
      otherwise a separator is inserted only when `base` is non-empty and does
      not already end with one. */
  function Push(base: string, path: string): (r: string)
    ensures IsAbsolute(path) ==> r == path
    ensures !IsAbsolute(path) ==> StartsWith(r, base) && EndsWith(r, path)
    ensures !IsAbsolute(path) ==> r == base + path || r == base + [SEPARATOR] + path
    ensures !IsAbsolute(path) ==>
              (r == base + [SEPARATOR] + path <==> base != [] && base[|base| - 1] != SEPARATOR)
    ensures !IsAbsolute(path) && path != [] ==> IsAbsolute(r) == IsAbsolute(base)
  {
    if IsAbsolute(path) then path
    else if base != [] && base[|base| - 1] != SEPARATOR then base + [SEPARATOR] + path
    else base + path
  }

  /** The text after the last separator once trailing separators are gone. */
  function LastComponent(p: string): string {
    var q := StripTrailingSeparators(p);
    q[LastIndexOf(q, SEPARATOR) + 1..]
  }

  /** A component that is neither empty, nor `.`, nor `..`. */
  predicate IsNormalName(name: string) {
    name != [] && name != ['.'] && name != ['.', '.']
  }

  /** `Path::file_name`: the last component, which must be a normal one. */
  function FileName(p: string): (r: Option<string>)
    ensures r.Some? ==> IsNormalName(r.value)
  {
    var name := LastComponent(p);
    if IsNormalName(name) then Some(name) else None
  }

  /** The file stem of a file name: everything before its last dot, unless
      that dot is the first character or there is none (Rust's
      `split_file_at_dot`). */
  function StemOf(name: string): (r: string)
    ensures |r| <= |name| && r == name[..|r|]
    ensures name != [] ==> r != []
  {
    var j := LastIndexOf(name, '.');
    if j <= 0 then name else name[..j]
  }

  /** `Path::file_stem`. */
  function FileStem(p: string): (r: Option<string>)
    ensures r.Some? <==> FileName(p).Some?
  {
    match FileName(p)
    case None => None
    case Some(name) => Some(StemOf(name))
  }

  /** `Path::extension`: what follows the last dot of the file name, when that
      dot is not its first character. */
  function Extension(p: string): (r: Option<string>)
    ensures r.Some? ==> FileName(p).Some? && '.' !in r.value && SEPARATOR !in r.value
    ensures r.Some? ==> EndsWith(FileName(p).value, ['.'] + r.value)
  {
    match FileName(p)
    case None => None
    case Some(name) =>
      var j := LastIndexOf(name, '.');
      if j <= 0 then None else Some(name[j + 1..])
  }

  /** `Path::with_extension(ext)`: the path cut just after the file stem (which
      also drops trailing separators), then `.ext` unless `ext` is empty; a
      path without a file name is returned as it is. */
  function WithExtension(p: string, ext: string): (r: string)
    ensures FileName(p).None? ==> r == p
    ensures FileName(p).Some? && ext != [] ==> EndsWith(r, ['.'] + ext)
  {
    match FileName(p)
    case None => p
    case Some(name) =>
      var q := StripTrailingSeparators(p);
      q[..|q| - |name| + |StemOf(name)|] + (if ext == [] then [] else ['.'] + ext)
  }

  lemma {:induction false} LastIndexOfAppend(a: string, b: string, c: char)
    ensures LastIndexOf(a + b, c) ==
            if LastIndexOf(b, c) >= 0 then |a| + LastIndexOf(b, c) else LastIndexOf(a, c)
  {
    if b != [] {
      assert (a + b)[..|a + b| - 1] == a + b[..|b| - 1];
      if b[|b| - 1] != c {
        LastIndexOfAppend(a, b[..|b| - 1], c);
      }
    } else {
      assert a + b == a;
    }
  }

  lemma {:induction false} StripAppend(dir: string, x: string)
    requires StripTrailingSeparators(x) != []
    ensures StripTrailingSeparators(dir + x) == dir + StripTrailingSeparators(x)
  {
    assert x != [];
    assert (dir + x)[|dir + x| - 1] == x[|x| - 1];
    if x[|x| - 1] == SEPARATOR {
      assert (dir + x)[..|dir + x| - 1] == dir + x[..|x| - 1];
      StripAppend(dir, x[..|x| - 1]);
    }
  }

  /** A file name survives being placed under a directory: the name of
      `dir + x` is that of `x` when `dir` is empty or ends in a separator. */
  lemma FileNameUnderDirectory(dir: string, x: string)
    requires dir == [] || dir[|dir| - 1] == SEPARATOR
    requires FileName(x).Some?
    ensures FileName(dir + x) == FileName(x)
  {
    var sx := StripTrailingSeparators(x);
    StripAppend(dir, x);
    var q := dir + sx;
    LastIndexOfAppend(dir, sx, SEPARATOR);
    var i := LastIndexOf(sx, SEPARATOR);
    var j := LastIndexOf(q, SEPARATOR);
    assert q[j + 1..] == sx[i + 1..] by {
      if i >= 0 {
        assert j == |dir| + i;
      } else {
        assert j == |dir| - 1;
      }
    }
    assert LastComponent(dir + x) == LastComponent(x);
  }

  /** A file name holds no separator. */
  lemma SeparatorFreeName(p: string)
    requires FileName(p).Some?
    ensures SEPARATOR !in FileName(p).value
  {
    var q := StripTrailingSeparators(p);
    var i := LastIndexOf(q, SEPARATOR);
    var name := q[i + 1..];
    forall k | 0 <= k < |name| ensures name[k] != SEPARATOR {
      assert name[k] == q[i + 1 + k];
    }
  }

  /** Extension and file stem are functions of the file name alone. */
  lemma SameFileNameSameParts(a: string, b: string)
    requires FileName(a) == FileName(b)
    ensures Extension(a) == Extension(b) && FileStem(a) == FileStem(b)
  {
  }

  /** A separator-free normal name is its own file name. */
  lemma FileNameOfName(name: string)
    requires IsNormalName(name) && SEPARATOR !in name
    ensures FileName(name) == Some(name)
  {
    assert StripTrailingSeparators(name) == name;
    assert LastIndexOf(name, SEPARATOR) == -1;
    assert name[0..] == name;
  }

  /** `with_extension` keeps everything up to the file stem: what comes before
      the file name is a directory prefix, the one the input path has. */
  lemma WithExtensionShape(p: string, ext: string) returns (dir: string)
    requires FileName(p).Some? && ext != []
    ensures dir == [] || dir[|dir| - 1] == SEPARATOR
    ensures StripTrailingSeparators(p) == dir + FileName(p).value
    ensures WithExtension(p, ext) == dir + (StemOf(FileName(p).value) + ['.'] + ext)
  {
    var q := StripTrailingSeparators(p);
    var name := FileName(p).value;
    var stem := StemOf(name);
    var n := FileNameStart(p);
    WithExtensionUnfold(p, ext);
    dir := CutAfterStem(q, n, name, stem, ext);
  }

  /** Sequence algebra behind `WithExtensionShape`. */
  lemma CutAfterStem(q: string, n: nat, name: string, stem: string, ext: string) returns (dir: string)
    requires n <= |q| && name == q[n..] && |stem| <= |name| && stem == name[..|stem|]
    requires n == 0 || q[n - 1] == SEPARATOR
    ensures dir == [] || dir[|dir| - 1] == SEPARATOR
    ensures q == dir + name
    ensures q[..n + |stem|] + (['.'] + ext) == dir + (stem + ['.'] + ext)
  {
    dir := q[..n];
    assert q[..n + |stem|] == dir + stem;
  }

  /** Where the file name starts: just after a separator, or at the start. */
  lemma FileNameStart(p: string) returns (n: nat)
    requires FileName(p).Some?
    ensures n <= |StripTrailingSeparators(p)|
    ensures FileName(p).value == StripTrailingSeparators(p)[n..]
    ensures n == 0 || StripTrailingSeparators(p)[n - 1] == SEPARATOR
  {
    var q := StripTrailingSeparators(p);
    n := LastIndexOf(q, SEPARATOR) + 1;
  }

  /** The body of `WithExtension` for a path with a file name and a
      non-empty extension. */
  lemma WithExtensionUnfold(p: string, ext: string)
    requires FileName(p).Some? && ext != []
    ensures var q := StripTrailingSeparators(p);
            var name := FileName(p).value;
            WithExtension(p, ext) == q[..|q| - |name| + |StemOf(name)|] + (['.'] + ext)
  {
  }

  /** A path has an extension exactly when it has a file name with a dot
      somewhere after its first character; a name such as `.xacro` has none. */
  lemma ExtensionExists(p: string)
    ensures Extension(p).None? <==> FileName(p).None? || '.' !in FileName(p).value[1..]
  {
    if FileName(p).Some? {
      var name := FileName(p).value;
      var j := LastIndexOf(name, '.');
      if j <= 0 {
        forall k | 0 <= k < |name[1..]| ensures name[1..][k] != '.' {
          assert name[1..][k] == name[k + 1];
        }
      } else {
        assert name[1..][j - 1] == '.';
      }
    }
  }

  /** In `stem.ext` with a dot-free `ext`, the last dot is the one just added. */
  lemma LastDotOfDotted(stem: string, ext: string)
    requires '.' !in ext
    ensures LastIndexOf(stem + ['.'] + ext, '.') == |stem|
  {
    LastIndexOfAppend(stem + ['.'], ext, '.');
    LastIndexOfAppend(stem, ['.'], '.');
  }

  /** The name `stem.ext` built from a file stem and a separator-free,
      dot-free extension is a normal, separator-free name. */
  lemma DottedNameIsPlain(stem: string, ext: string)
    requires stem != [] && SEPARATOR !in stem
    requires ext != [] && SEPARATOR !in ext
    ensures IsNormalName(stem + ['.'] + ext) && SEPARATOR !in stem + ['.'] + ext
  {
    var n := stem + ['.'] + ext;
    assert |n| >= 3;
    forall k | 0 <= k < |n| ensures n[k] != SEPARATOR {
      if k < |stem| { assert n[k] == stem[k]; }
      else if k > |stem| { assert n[k] == ext[k - |stem| - 1]; }
    }
  }

  /** A normal, separator-free name placed under a directory is the file name
      of the result. */
  lemma FileNameOfJoined(dir: string, name: string)
    requires dir == [] || dir[|dir| - 1] == SEPARATOR
    requires IsNormalName(name) && SEPARATOR !in name
    ensures FileName(dir + name) == Some(name)
  {
    FileNameOfName(name);
    FileNameUnderDirectory(dir, name);
  }

  /** Extension and stem of a path whose file name is `stem.ext`. */
  lemma SplitDottedName(r: string, stem: string, ext: string)
    requires stem != [] && '.' !in ext
    requires FileName(r) == Some(stem + ['.'] + ext)
    ensures Extension(r) == Some(ext)
    ensures FileStem(r) == Some(stem)
  {
    var n := stem + ['.'] + ext;
    LastDotOfDotted(stem, ext);
    assert n[|stem| + 1..] == ext;
    assert n[..|stem|] == stem;
  }

  /** The stem of a file name holds no separator. */
  lemma SeparatorFreeStem(p: string)
    requires FileName(p).Some?
    ensures SEPARATOR !in StemOf(FileName(p).value)
  {
    var name := FileName(p).value;
    var stem := StemOf(name);
    SeparatorFreeName(p);
    forall k | 0 <= k < |stem| ensures stem[k] != SEPARATOR {
      assert stem[k] == name[k];
    }
  }

  /** Swapping in a new extension gives a path whose extension is that one and
      whose file stem has not changed. */
  lemma WithExtensionSwapsExtension(p: string, ext: string)
    requires FileName(p).Some?
    requires ext != [] && '.' !in ext && SEPARATOR !in ext
    ensures Extension(WithExtension(p, ext)) == Some(ext)
    ensures FileStem(WithExtension(p, ext)) == FileStem(p)
  {
    var stem := StemOf(FileName(p).value);
    var dir := WithExtensionShape(p, ext);
    SeparatorFreeStem(p);
    DottedNameIsPlain(stem, ext);
    FileNameOfJoined(dir, stem + ['.'] + ext);
    SplitDottedName(WithExtension(p, ext), stem, ext);
  }
}
