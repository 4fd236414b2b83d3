/** Which paths of a wiki tree the maintainer reads and writes (validator.js, publish.js). */
module WikiPath {
  import opened Text

  type Path = string
  type Bytes = string
  type Tree = map<Path, Bytes>

  const INDEX: Path := "index.md"
  const PAGES: Path := "pages/"
  const TMP: string := ".tmp-"

  predicate IsAllowedWikiPath(rel: Path) {
    if '\\' in rel || '\0' in rel || ".." in Split(rel, '/') then false
    else if rel == INDEX then true
    else StartsWith(rel, PAGES) && EndsWith(rel, ".md") && '/' !in rel[|PAGES|..]
  }

  /** The last component of an allowed path. */
  function Basename(rel: Path): string
    requires IsAllowedWikiPath(rel)
  {
    if rel == INDEX then rel else rel[|PAGES|..]
  }

  /** What the directory walk lists: allowed files whose name is not a staging name. */
  predicate Visible(rel: Path) {
    IsAllowedWikiPath(rel) && !StartsWith(Basename(rel), TMP)
  }

  /** What `listWikiFilesAtCommit` sees of a commit. */
  function Listed(t: Tree): (r: Tree) {
    map rel | rel in t && IsAllowedWikiPath(rel) :: t[rel]
  }

  /** What `listWikiRelFromDir` sees of a directory. */
  function Walked(t: Tree): (r: Tree) {
    map rel | rel in t && Visible(rel) :: t[rel]
  }

  /** The part of a directory the walk does not see. */
  function Unseen(t: Tree): (r: Tree) {
    map rel | rel in t && !Visible(rel) :: t[rel]
  }
}
