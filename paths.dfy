/** A component model of the `std::filesystem::path` operations the extractor
    and the manifest resolver use. A path is a flag saying whether it starts at
    the root, and its sequence of components; each name handed to an operation
    is taken as one component (separators inside names are not split). */
module Paths {

  import opened Wrappers
  import opened Strings

  datatype Path = Path(rooted: bool, parts: seq<string>)

  /** A default-constructed or cleared path. */
  const Empty := Path(false, [])

  /** `p / name` and `p.append(name)` for a relative one-component `name`. */
  function Append(p: Path, name: string): (r: Path)
    ensures r.rooted == p.rooted && |r.parts| == |p.parts| + 1
    ensures r.parts[..|p.parts|] == p.parts && r.parts[|p.parts|] == name
  {
    Path(p.rooted, p.parts + [name])
  }

  /** `p += s`: plain string concatenation, which extends the last component,
      or makes `s` the only component of an empty path. */
  function Concat(p: Path, s: string): (r: Path)
    ensures r.rooted == p.rooted
    ensures |p.parts| > 0 ==> |r.parts| == |p.parts| && r.parts[..|p.parts| - 1] == p.parts[..|p.parts| - 1]
    ensures |p.parts| > 0 ==> r.parts[|p.parts| - 1] == p.parts[|p.parts| - 1] + s
    ensures |p.parts| == 0 ==> r.parts == (if s == "" then [] else [s])
  {
    if |p.parts| == 0 then (if s == "" then p else Path(p.rooted, [s]))
    else Path(p.rooted, p.parts[..|p.parts| - 1] + [p.parts[|p.parts| - 1] + s])
  }

  /** `p.parent_path()`: drops the last component; the empty path and the bare
      root are their own parents. */
  function Parent(p: Path): (r: Path)
    ensures r.rooted == p.rooted
    ensures |p.parts| > 0 ==> r.parts + [p.parts[|p.parts| - 1]] == p.parts
    ensures |p.parts| == 0 ==> r == p
  {
    if |p.parts| == 0 then p else Path(p.rooted, p.parts[..|p.parts| - 1])
  }

  /** `p / q` for a whole path `q`: a rooted `q` replaces `p`. */
  function Combine(p: Path, q: Path): (r: Path)
    ensures q.rooted ==> r == q
    ensures !q.rooted ==> r.rooted == p.rooted && r.parts == p.parts + q.parts
  {
    if q.rooted then q else Path(p.rooted, p.parts + q.parts)
  }

  /** Appending a component and then taking the parent gives back the path:
      the push and pop around a manifest folder cancel out. */
  lemma ParentOfAppend(p: Path, name: string)
    ensures Parent(Append(p, name)) == p
  {
    assert (p.parts + [name])[..|p.parts|] == p.parts;
  }

  /** `+=` followed by `parent_path` is NOT a push and pop: on a non-empty
      path it removes the component that `+=` extended. */
  lemma ParentOfConcat(p: Path, s: string)
    ensures |p.parts| > 0 ==> Parent(Concat(p, s)) == Parent(p)
    ensures |p.parts| == 0 ==> Parent(Concat(p, s)) == p
  {
    if |p.parts| > 0 {
      var n := |p.parts|;
      assert Concat(p, s).parts[..n - 1] == p.parts[..n - 1];
    }
  }

  /** The last component of a file name given as a string
      (`path(filename).filename()`), with `/` as the separator. */
  function FileName(s: string): (r: string)
    ensures '/' !in r
    ensures |r| <= |s| && r == s[|s| - |r|..]
    ensures |r| < |s| ==> s[|s| - |r| - 1] == '/'
  {
    match LastIndexOf(s, '/')
    case None => s
    case Some(i) => s[i + 1..]
  }

  /** Where the extension of a one-component name starts: at its last `.`,
      except that a leading `.` (as in ".profile") and the names "." and ".."
      have none. */
  function ExtensionStart(name: string): (r: Option<nat>)
    ensures r.Some? ==> 0 < r.value < |name| && name[r.value] == '.'
    ensures r.Some? ==> '.' !in name[r.value + 1..]
  {
    if name == "." || name == ".." then None
    else match LastIndexOf(name, '.')
      case None => None
      case Some(i) => if i > 0 then Some(i) else None
  }

  /** `path.extension()`, including its dot, or "" when there is none. */
  function Extension(name: string): string
  {
    match ExtensionStart(name)
    case None => ""
    case Some(i) => name[i..]
  }

  /** `path.stem()`: the name without its extension. */
  function Stem(name: string): string
  {
    match ExtensionStart(name)
    case None => name
    case Some(i) => name[..i]
  }

  /** `path.has_extension()`: a `.` after the first character, except in
      "." and "..". */
  predicate HasExtension(name: string)
  {
    Extension(name) != ""
  }

  /** A name has no place where an extension starts exactly when it is "."
      or "..", or has no `.` after its first character. */
  lemma NoExtensionStart(name: string)
    ensures ExtensionStart(name).None? <==>
              name == "." || name == ".." || forall i :: 0 < i < |name| ==> name[i] != '.'
  {
  }

  /** `has_extension()` in terms of the characters of the name. */
  lemma HasExtensionIff(name: string)
    ensures HasExtension(name) <==> name != "." && name != ".." && exists i :: 0 < i < |name| && name[i] == '.'
  {
    NoExtensionStart(name);
    if HasExtension(name) {
      var i := ExtensionStart(name).value;
      assert 0 < i < |name| && name[i] == '.';
    }
  }

  /** The stem is a prefix of the name and the extension a suffix; a stem
      shorter than the name is non-empty and followed by the dot. */
  lemma StemPrefixExtensionSuffix(name: string)
    ensures |Stem(name)| <= |name| && Stem(name) == name[..|Stem(name)|]
    ensures |Stem(name)| < |name| ==> 0 < |Stem(name)| && name[|Stem(name)|] == '.'
    ensures |Extension(name)| < |name| || Extension(name) == ""
    ensures Extension(name) == name[|name| - |Extension(name)|..]
  {
  }

  /** Stem and extension split a name: they put it back together, the
      extension is empty or starts with its only dot, and a name with an
      extension keeps a non-empty stem. */
  lemma StemAndExtension(name: string)
    ensures Stem(name) + Extension(name) == name
    ensures HasExtension(name) ==> Extension(name)[0] == '.' && '.' !in Extension(name)[1..]
    ensures HasExtension(name) ==> Stem(name) != ""
    ensures !HasExtension(name) ==> Stem(name) == name
  {
    match ExtensionStart(name)
    case None =>
    case Some(i) =>
      assert name[..i] + name[i..] == name;
      assert name[i..][1..] == name[i + 1..];
  }

  /** A name made only of decimal digits has no extension and is its own
      stem: the TOC names entries this way when they carry only an id. */
  lemma DigitsHaveNoExtension(name: string)
    requires forall i :: 0 <= i < |name| ==> IsDigit(name[i])
    ensures !HasExtension(name) && Stem(name) == name
  {
  }
}
