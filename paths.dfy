/** Paths as `std::path::Path` sees them once split into components, and the
    three path rules the tool relies on: the extension of the file name, the
    path with that extension removed (`with_extension("")`), and the parent. */
module Paths {
  import opened Common

  /** Whether the path starts at the root, and its component names in order. */
  datatype Path = Path(absolute: bool, names: seq<string>)

  /** The empty relative path `""` (what `Path::parent` returns for a bare file name). */
  const Empty: Path := Path(false, [])

  /** The descriptor extension, without its dot. */
  const YoinkExt: string := "yoink"

  /** Index of the last '.' in `s`, or -1 when there is none. */
  function LastDot(s: string): (i: int)
    ensures -1 <= i < |s|
    ensures i >= 0 ==> s[i] == '.' && forall j :: i < j < |s| ==> s[j] != '.'
    ensures i == -1 ==> forall j :: 0 <= j < |s| ==> s[j] != '.'
  {
    if s == [] then -1
    else if s[|s| - 1] == '.' then |s| - 1
    else LastDot(s[..|s| - 1])
  }

  /** `Path::file_name`: the last component, unless there is none or it is "..". */
  function FileName(p: Path): Option<string>
  {
    if p.names == [] || p.names[|p.names| - 1] == ".." then None
    else Some(p.names[|p.names| - 1])
  }

  /** Splits a file name into its stem and its extension as Rust's
      `rsplit_file_at_dot` does: at the last dot, except that a name with no
      dot, a name whose only dot is its first character, and ".." have no
      extension and are their own stem. */
  function SplitAtDot(name: string): (string, Option<string>)
  {
    var i := LastDot(name);
    if name == ".." || i <= 0 then (name, None)
    else (name[..i], Some(name[i + 1..]))
  }

  /** `Path::extension`. */
  function Extension(p: Path): Option<string>
  {
    match FileName(p)
    case None => None
    case Some(name) => SplitAtDot(name).1
  }

  /** `Path::with_extension("")`: the last component replaced by its stem;
      a path without a file name is returned as it is. */
  function WithoutExtension(p: Path): Path
  {
    match FileName(p)
    case None => p
    case Some(name) => Path(p.absolute, p.names[..|p.names| - 1] + [SplitAtDot(name).0])
  }

  /** `Path::parent`: drops the last component; the root and the empty path have none. */
  function Parent(p: Path): Option<Path>
  {
    if p.names == [] then None else Some(Path(p.absolute, p.names[..|p.names| - 1]))
  }

  /** `Path::join` with one entry name, as `DirEntry::path` builds it; joining
      the empty name gives a path equal to `p` (Rust compares paths by components). */
  function Join(p: Path, name: string): Path
  {
    if name == "" then p else Path(p.absolute, p.names + [name])
  }

  /** The absolute path a path denotes when the working directory is `base`. */
  function Resolve(base: Path, p: Path): (r: Path)
    ensures r.absolute == (base.absolute || p.absolute)
  {
    if p.absolute then p else Path(base.absolute, base.names + p.names)
  }

  /** A descriptor path: its extension is exactly `yoink`. */
  predicate IsYoink(p: Path)
  {
    Extension(p) == Some(YoinkExt)
  }

  lemma {:induction false} LastDotOfSplit(stem: string, ext: string)
    requires forall j :: 0 <= j < |ext| ==> ext[j] != '.'
    ensures LastDot(stem + "." + ext) == |stem|
    decreases |ext|
  {
    var s := stem + "." + ext;
    if ext == [] {
      assert s[|s| - 1] == '.';
    } else {
      assert s[..|s| - 1] == stem + "." + ext[..|ext| - 1];
      LastDotOfSplit(stem, ext[..|ext| - 1]);
    }
  }

  /** A file name has extension `ext` exactly when it is a non-empty stem, a
      dot and `ext`, where `ext` holds no dot and the name is not "..". */
  lemma ExtensionIff(p: Path, ext: string)
    ensures Extension(p) == Some(ext) <==>
      exists stem: string ::
        && stem != ""
        && (forall j :: 0 <= j < |ext| ==> ext[j] != '.')
        && FileName(p) == Some(stem + "." + ext)
        && stem + "." + ext != ".."
  {
    if Extension(p) == Some(ext) {
      var name := FileName(p).value;
      var i := LastDot(name);
      var stem := name[..i];
      assert name == stem + "." + ext;
    }
    if exists stem: string ::
        && stem != ""
        && (forall j :: 0 <= j < |ext| ==> ext[j] != '.')
        && FileName(p) == Some(stem + "." + ext)
        && stem + "." + ext != ".."
    {
      var stem: string :|
        && stem != ""
        && (forall j :: 0 <= j < |ext| ==> ext[j] != '.')
        && FileName(p) == Some(stem + "." + ext)
        && stem + "." + ext != "..";
      var name := stem + "." + ext;
      LastDotOfSplit(stem, ext);
      assert name[..|stem|] == stem;
      assert name[|stem| + 1..] == ext;
    }
  }

  /** The associated file of a descriptor: same directory, same number of
      components, and its name followed by ".yoink" is the descriptor's name. */
  lemma AssociatedFileOf(p: Path)
    requires IsYoink(p)
    ensures var a := WithoutExtension(p);
      && a.absolute == p.absolute
      && |a.names| == |p.names| > 0
      && Parent(a) == Parent(p)
      && a.names[|a.names| - 1] != ""
      && p.names[|p.names| - 1] == a.names[|a.names| - 1] + "." + YoinkExt
      && a != p
  {
    var name := FileName(p).value;
    var i := LastDot(name);
    var a := WithoutExtension(p);
    assert name == name[..i] + "." + name[i + 1..];
    assert a.names[..|a.names| - 1] == p.names[..|p.names| - 1];
    assert |a.names[|a.names| - 1]| < |name|;
  }
}
