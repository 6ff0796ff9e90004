/** Choosing the robot description file to load (`convert_xacro_if_needed_and_get_path`):
    a `.xacro` macro file is expanded into a `.urdf` file under a fixed cache
    directory and that file is used; any other file is used as it is. The
    expansion itself runs external programs and is passed in. */
module Xacro {
  import opened Wrappers
  import opened Paths

  /** `get_cache_dir()`. */
  const CACHE_DIR: string := "/tmp/urdf_viz/"
  const XACRO_EXTENSION: string := "xacro"
  const URDF_EXTENSION: string := "urdf"

  /** An `std::io::Error` of kind `Other`, by its message. */
  datatype IoError = IoError(message: string)

  const NO_EXTENSION_MESSAGE: string := "failed to get extension"
  const XACRO_FAILED_MESSAGE: string := "faild to xacro"

  /** The command line `convert_xacro_to_urdf` runs. */
  function XacroCommand(filename: string, newPath: string): (argv: seq<string>)
    ensures |argv| == 7 && argv[0] == "rosrun" && argv[1] == "xacro" && argv[2] == "xacro"
    ensures argv[3] == "--inorder" && argv[4] == filename && argv[5] == "-o" && argv[6] == newPath
  {
    ["rosrun", "xacro", "xacro", "--inorder", filename, "-o", newPath]
  }

  /** `convert_xacro_to_urdf(filename, new_path)`: make sure the parent
      directory of `newPath` exists (`createParentDir`, whose error is passed
      on), then run the xacro command (`run` says whether it exited
      successfully). */
  function ConvertXacroToUrdf(filename: string, newPath: string,
                              createParentDir: string -> Result<(), IoError>,
                              run: seq<string> -> bool): (r: Result<(), IoError>)
    ensures r.Success? <==> createParentDir(newPath).Success? && run(XacroCommand(filename, newPath))
    ensures createParentDir(newPath).Failure? ==> r == createParentDir(newPath)
    ensures createParentDir(newPath).Success? && !run(XacroCommand(filename, newPath)) ==>
              r == Failure(IoError(XACRO_FAILED_MESSAGE))
  {
    match createParentDir(newPath)
    case Failure(e) => Failure(e)
    case Success(_) =>
      if run(XacroCommand(filename, newPath)) then Success(()) else Failure(IoError(XACRO_FAILED_MESSAGE))
  }

  /** Where a macro file is expanded to: the cache directory followed by the
      input path with its extension swapped for `urdf`. */
  function CachedUrdfPath(inputPath: string): (target: string)
    ensures StartsWith(target, CACHE_DIR)
    ensures FileName(inputPath).Some? ==> EndsWith(target, ['.'] + URDF_EXTENSION)
  {
    var swapped := WithExtension(inputPath, URDF_EXTENSION);
    assert (CACHE_DIR + swapped)[..|CACHE_DIR|] == CACHE_DIR;
    assert (CACHE_DIR + swapped)[|CACHE_DIR + swapped| - |swapped|..] == swapped;
    CACHE_DIR + swapped
  }

  /** `convert_xacro_if_needed_and_get_path(input_path)`, with the expansion
      step `convert(input, target)` passed in. */
  function ConvertXacroIfNeededAndGetPath(inputPath: string,
                                          convert: (string, string) -> Result<(), IoError>): (r: Result<string, IoError>)
    ensures Extension(inputPath).None? ==> r == Failure(IoError(NO_EXTENSION_MESSAGE))
    ensures Extension(inputPath).Some? && Extension(inputPath) != Some(XACRO_EXTENSION) ==>
              r == Success(inputPath)
    ensures Extension(inputPath) == Some(XACRO_EXTENSION) ==>
              match convert(inputPath, CachedUrdfPath(inputPath))
              case Success(_) => r == Success(CachedUrdfPath(inputPath))
              case Failure(e) => r == Failure(e)
  {
    match Extension(inputPath)
    case None => Failure(IoError(NO_EXTENSION_MESSAGE))
    case Some(ext) =>
      if ext == XACRO_EXTENSION then
        var target := CachedUrdfPath(inputPath);
        match convert(inputPath, target)
        case Success(_) => Success(target)
        case Failure(e) => Failure(e)
      else
        Success(inputPath)
  }

  /** The expanded file of a macro file lives in the cache directory, has the
      `urdf` extension and keeps the macro file's stem. */
  lemma CachedUrdfPathShape(inputPath: string)
    requires Extension(inputPath) == Some(XACRO_EXTENSION)
    ensures StartsWith(CachedUrdfPath(inputPath), CACHE_DIR)
    ensures Extension(CachedUrdfPath(inputPath)) == Some(URDF_EXTENSION)
    ensures FileStem(CachedUrdfPath(inputPath)) == FileStem(inputPath)
  {
    var swapped := WithExtension(inputPath, URDF_EXTENSION);
    WithExtensionSwapsExtension(inputPath, URDF_EXTENSION);
    FileNameUnderDirectory(CACHE_DIR, swapped);
    SameFileNameSameParts(CACHE_DIR + swapped, swapped);
    assert (CACHE_DIR + swapped)[..|CACHE_DIR|] == CACHE_DIR;
  }

  /** Below the cache directory the expanded file mirrors the input path: the
      input's directory `dir`, then its file stem and `.urdf`. */
  lemma CachedUrdfPathMirrorsInput(inputPath: string) returns (dir: string)
    requires FileName(inputPath).Some?
    ensures StripTrailingSeparators(inputPath) == dir + FileName(inputPath).value
    ensures CachedUrdfPath(inputPath) == CACHE_DIR + dir + FileStem(inputPath).value + ['.'] + URDF_EXTENSION
  {
    dir := WithExtensionShape(inputPath, URDF_EXTENSION);
    var stem := FileStem(inputPath).value;
    assert stem == StemOf(FileName(inputPath).value);
    assert CachedUrdfPath(inputPath) == CACHE_DIR + (dir + (stem + ['.'] + URDF_EXTENSION));
    Regroup(CACHE_DIR, dir, stem, ['.'], URDF_EXTENSION);
  }

  /** Regrouping a chain of concatenations. */
  lemma Regroup(a: string, b: string, c: string, d: string, e: string)
    ensures a + (b + (c + d + e)) == a + b + c + d + e
  {
  }

  /** Whenever the function succeeds, the path it returns names a file that is
      not a macro file: either the input, which was not one, or its expansion. */
  lemma ResultIsNotXacro(inputPath: string, convert: (string, string) -> Result<(), IoError>)
    requires ConvertXacroIfNeededAndGetPath(inputPath, convert).Success?
    ensures Extension(ConvertXacroIfNeededAndGetPath(inputPath, convert).value).Some?
    ensures Extension(ConvertXacroIfNeededAndGetPath(inputPath, convert).value) != Some(XACRO_EXTENSION)
  {
    if Extension(inputPath) == Some(XACRO_EXTENSION) {
      CachedUrdfPathShape(inputPath);
    }
  }

  /** With the real expansion step plugged in, a macro file yields its cached
      `urdf` path exactly when the cache directory could be prepared and the
      xacro command for that target succeeded; a failure to prepare the
      directory is reported as it is. */
  lemma XacroInputWithConverter(inputPath: string,
                                createParentDir: string -> Result<(), IoError>,
                                run: seq<string> -> bool)
    requires Extension(inputPath) == Some(XACRO_EXTENSION)
    ensures var target := CachedUrdfPath(inputPath);
            var r := ConvertXacroIfNeededAndGetPath(inputPath,
                       (input, newPath) => ConvertXacroToUrdf(input, newPath, createParentDir, run));
            && (r.Success? <==> createParentDir(target).Success? && run(XacroCommand(inputPath, target)))
            && (r.Success? ==> r.value == target)
            && (createParentDir(target).Failure? ==> r == Failure(createParentDir(target).error))
  {
  }
}
