/** File-system paths as the Rust standard library's `Path` sees them after
    normalisation: a sequence of normal components (no `.` components, no
    separators inside a component). Only the queries the organizer, the
    classifier and the verifier use are modelled. */
module Paths {
  import opened Outcomes

  type Path = seq<string>

  /** `Path::file_name`: the last component, absent for an empty path and for
      a path that ends in `..`. */
  function FileName(p: Path): (r: Option<string>)
    ensures r.Some? <==> |p| > 0 && p[|p| - 1] != ".."
    ensures r.Some? ==> r.value == p[|p| - 1]
  {
    if |p| == 0 || p[|p| - 1] == ".." then None else Some(p[|p| - 1])
  }

  /** The position of the last `.` in `name`, if any. */
  function LastDot(name: string): (r: Option<nat>)
    ensures r.None? ==> '.' !in name
    ensures r.Some? ==> r.value < |name| && name[r.value] == '.' && '.' !in name[r.value + 1..]
  {
    if name == [] then None
    else if name[|name| - 1] == '.' then Some(|name| - 1)
    else
      var r := LastDot(name[..|name| - 1]);
      if r.Some? then
        assert name[r.value + 1..] == name[..|name| - 1][r.value + 1..] + [name[|name| - 1]];
      r
      else r
  }

  /** The extension of a file name, split off at its last `.`; a name without
      a dot, or whose only dot is its first character (a hidden file such as
      `.bashrc`), has none. A name ending in `.` has the empty extension. */
  function NameExtension(name: string): (r: Option<string>)
    ensures r.None? <==> '.' !in name || (name[0] == '.' && '.' !in name[1..])
    ensures r.Some? ==> '.' !in r.value && |r.value| + 1 < |name|
                        && name == name[..|name| - |r.value| - 1] + "." + r.value
  {
    match LastDot(name)
    case None => None
    case Some(i) =>
      if i == 0 then None
      else
        assert name == name[..i] + "." + name[i + 1..];
        Some(name[i + 1..])
  }

  /** `Path::extension`: the extension of the last component. */
  function Extension(p: Path): (r: Option<string>)
    ensures FileName(p).None? ==> r.None?
    ensures FileName(p).Some? ==> r == NameExtension(FileName(p).value)
  {
    match FileName(p)
    case None => None
    case Some(name) => NameExtension(name)
  }

  /** `PathBuf::push` of a single normal component. */
  function Join(p: Path, component: string): (r: Path)
    ensures |r| == |p| + 1 && r[..|p|] == p && r[|p|] == component
  {
    p + [component]
  }

  /** Splitting `stem.ext` gives back `ext` whenever the stem is not empty
      and the extension holds no dot. */
  lemma {:induction false} ExtensionRoundTrip(stem: string, ext: string)
    requires stem != [] && '.' !in ext
    ensures NameExtension(stem + "." + ext) == Some(ext)
  {
    var name := stem + "." + ext;
    assert name[|stem|] == '.';
    assert name[|stem| + 1..] == ext;
    var d := LastDot(name);
    assert d.Some?;
    assert name[d.value + 1..] == name[d.value + 1..|stem| + 1] + name[|stem| + 1..] by {
      assert d.value <= |stem|;
    }
  }
}
