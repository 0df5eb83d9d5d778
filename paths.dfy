/** Filesystem paths as sequences of components, the way std::path::Path
    compares them: `strip_prefix` works component by component, not on the
    characters of the rendered path. */
module Paths {
  import opened Wrappers

  /** One path component (a directory or file name, or the root). */
  type Component = string

  type Path = seq<Component>

  /** `path.strip_prefix(base)` (src/main.rs:147): the components of `path`
      after those of `base`, or None (the StripPrefixError) when `base` is not
      a component prefix of `path`. */
  function StripPrefix(path: Path, base: Path): (r: Option<Path>)
    ensures r.Some? <==> base <= path
    ensures r.Some? ==> base + r.value == path
  {
    if base <= path then Some(path[|base|..]) else None
  }

  /** Stripping a base from a path built on it gives back the relative part. */
  lemma StripJoined(base: Path, rel: Path)
    ensures StripPrefix(base + rel, base) == Some(rel)
  {
    assert (base + rel)[|base|..] == rel;
  }
}
