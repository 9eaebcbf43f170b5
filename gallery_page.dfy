/** The gallery page's category buttons and the filter they select. */
module GalleryPage {
  import opened Http
  import opened Listing
  import opened GalleryModel

  const ALL: string := "all"

  /** The buttons, in display order. */
  const CATEGORIES: seq<string> := ["all", "match", "training", "team", "events", "other"]

  /** The buttons are `all` followed by the schema's own categories. */
  lemma CategoriesAreAllThenSchema()
    ensures CATEGORIES == [ALL] + CATEGORY_NAMES
    ensures forall c :: c in CATEGORY_NAMES ==> c != ALL
  {
  }

  function InCategory(selected: string): Doc<GalleryItem> -> bool {
    (g: Doc<GalleryItem>) => CategoryName(g.rec.category) == selected
  }

  /** `filteredGallery`: everything for `all`, otherwise the items of that category, in list order. */
  function Filtered(items: seq<Doc<GalleryItem>>, selected: string): (r: seq<Doc<GalleryItem>>)
    ensures selected == ALL ==> r == items
    ensures selected != ALL ==> forall g :: g in r <==> g in items && CategoryName(g.rec.category) == selected
    ensures multiset(r) <= multiset(items)
  {
    if selected == ALL then items else Filter(items, InCategory(selected))
  }

  /** Two items of the selected category keep the order of the fetched list. */
  lemma FilteredKeepsOrder(items: seq<Doc<GalleryItem>>, selected: string, i: nat, j: nat)
    requires selected != ALL && i < j < |items|
    requires CategoryName(items[i].rec.category) == selected && CategoryName(items[j].rec.category) == selected
    ensures var r := Filtered(items, selected);
            var a := |Filter(items[..i], InCategory(selected))|;
            var b := |Filter(items[..j], InCategory(selected))|;
            a < b < |r| && r[a] == items[i] && r[b] == items[j]
  {
    FilterKeepsOrder(items, InCategory(selected), i, j);
  }

  /** The "No images in this category yet" message. */
  function ShowsNoImages(items: seq<Doc<GalleryItem>>, selected: string): (r: bool)
    ensures selected == ALL ==> (r <==> items == [])
    ensures selected != ALL ==> (r <==> forall g :: g in items ==> CategoryName(g.rec.category) != selected)
  {
    var shown := Filtered(items, selected);
    assert shown != [] ==> shown[0] in shown;
    |shown| == 0
  }
}
