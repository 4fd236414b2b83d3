/**
 * The wiki worktree as the maintainer reads it. A page is the text of its file, and what
 * `parseFrontmatter` returns for it: nothing, or the fields of its header and its body.
 */
module WikiTree {
  import opened Text
  import opened SourcePlan
  import F = Frontmatter

  type Slug = string

  datatype Page = Broken(text: string) | Page(text: string, fields: map<string, F.Field>, body: string)

  /** `pages` holds `pages/<slug>.md`, `index` is `index.md`, `other` is everything else. */
  datatype Wiki = Wiki(pages: map<Slug, Page>, index: Option<string>, other: map<string, string>)

  /** The path of a cited source; one that is absent or no text reads as the empty path. */
  function PathOf(item: F.Item): DocPath {
    if "path" in item && item["path"].Str? then item["path"].s else ""
  }

  /** The cited sources. The elements of a list on one line have no path. */
  function CitedIn(fields: map<string, F.Field>): seq<F.Item> {
    if "sources" !in fields then []
    else
      match fields["sources"]
      case Sources(items) => items
      case Scalar(Arr(values)) => seq(|values|, _ => map[])
      case Scalar(_) => []
  }

  function Cited(page: Page): seq<F.Item> {
    if page.Broken? then [] else CitedIn(page.fields)
  }

  function WithCited(fields: map<string, F.Field>, items: seq<F.Item>): (r: map<string, F.Field>)
    ensures CitedIn(r) == items
  {
    fields["sources" := F.Sources(items)]
  }

  predicate Cites(page: Page, path: DocPath) {
    page.Page? && exists item :: item in Cited(page) && PathOf(item) == path
  }

  /** The pages of a tree that cite a source. */
  function Citing(w: Wiki, path: DocPath): set<Slug> {
    set slug | slug in w.pages && Cites(w.pages[slug], path)
  }

  /** The cited sources other than `path`. */
  function Others(items: seq<F.Item>, path: DocPath): (r: seq<F.Item>)
    ensures forall item :: item in r <==> item in items && PathOf(item) != "" && PathOf(item) != path
  {
    if items == [] then []
    else (if PathOf(items[0]) != "" && PathOf(items[0]) != path then [items[0]] else []) + Others(items[1..], path)
  }

  predicate OnlyCites(page: Page, path: DocPath) {
    Cites(page, path) && Others(Cited(page), path) == []
  }

  /** `dropPagesOnlyCiting`: pages whose only source is `path` go. */
  function DropOnlyCiting(w: Wiki, path: DocPath): Wiki {
    w.(pages := map slug | slug in w.pages && !OnlyCites(w.pages[slug], path) :: w.pages[slug])
  }

  /** `dropPagesCiting`: every page that cites `path` goes. */
  function DropCiting(w: Wiki, path: DocPath): Wiki {
    w.(pages := w.pages - Citing(w, path))
  }

  /** The other sources of the pages `dropPagesCiting` removes. */
  function CoSources(w: Wiki, path: DocPath): set<DocPath> {
    set slug, item | slug in Citing(w, path) && item in Cited(w.pages[slug]) && PathOf(item) != "" && PathOf(item) != path
      :: PathOf(item)
  }
}
