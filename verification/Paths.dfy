/** Normalised workspace paths as segment sequences; `[]` is the root. */
module Paths {
  type Path = seq<string>

  const ROOT: Path := []

  /** `immediateParent`: the root is its own parent. */
  function Parent(p: Path): Path {
    if p == [] then [] else p[..|p| - 1]
  }

  predicate AtOrBelow(p: Path, prefix: Path) {
    prefix <= p
  }
}
