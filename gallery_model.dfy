/** The gallery schema: a trimmed required title, a required image URL, a category enum. */
module GalleryModel {
  import opened Wrappers
  import opened Schema

  datatype Category = MatchDay | Training | Team | Events | Other

  const CATEGORY_NAMES: seq<string> := ["match", "training", "team", "events", "other"]

  function CategoryName(c: Category): (n: string)
    ensures n in CATEGORY_NAMES && ParseCategory(n) == Some(c)
  {
    match c
    case MatchDay => "match"
    case Training => "training"
    case Team => "team"
    case Events => "events"
    case Other => "other"
  }

  function ParseCategory(n: string): (r: Option<Category>)
    ensures r.Some? <==> n in CATEGORY_NAMES
  {
    if n == "match" then Some(MatchDay)
    else if n == "training" then Some(Training)
    else if n == "team" then Some(Team)
    else if n == "events" then Some(Events)
    else if n == "other" then Some(Other)
    else None
  }

  lemma NameParsesBack(n: string)
    ensures n in CATEGORY_NAMES ==> CategoryName(ParseCategory(n).value) == n
  {
  }

  const DEFAULT_CATEGORY: Category := Other

  datatype GalleryItem = GalleryItem(title: string, imageUrl: string, description: string, category: Category, createdAt: int)

  datatype GalleryInput = GalleryInput(
    title: Option<string>, imageUrl: Option<string>, description: Option<string>, category: Option<string>)

  predicate Valid(g: GalleryItem) {
    g.title != "" && Trim(g.title) == g.title && g.imageUrl != ""
  }

  function Errors(b: GalleryInput, creating: bool): seq<FieldError> {
    CheckRequiredString(Field("title"), TrimOpt(b.title), creating)
    + CheckRequiredString(Field("imageUrl"), b.imageUrl, creating)
    + CheckEnum(Field("category"), b.category, CATEGORY_NAMES, false, creating)
  }

  predicate Acceptable(b: GalleryInput, creating: bool) {
    && (if b.title.None? then !creating else Trim(b.title.value) != "")
    && (if b.imageUrl.None? then !creating else b.imageUrl.value != "")
    && (b.category.Some? ==> b.category.value in CATEGORY_NAMES)
  }

  lemma ErrorsMatchRules(b: GalleryInput, creating: bool)
    ensures Errors(b, creating) == [] <==> Acceptable(b, creating)
  {
  }

  /** `Gallery.create(body)` with `now` as the insert time. */
  function New(b: GalleryInput, now: int): (r: Result<GalleryItem, seq<FieldError>>)
    ensures r.Success? <==> Acceptable(b, true)
    ensures r.Failure? ==> r.error != []
    ensures r.Success? ==> Valid(r.value)
    ensures r.Success? ==>
              var g := r.value;
              && g.title == Trim(b.title.value) && g.imageUrl == b.imageUrl.value
              && g.description == b.description.GetOr("")
              && (b.category.None? ==> g.category == DEFAULT_CATEGORY)
              && (b.category.Some? ==> CategoryName(g.category) == b.category.value)
              && g.createdAt == now
  {
    var errs := Errors(b, true);
    ErrorsMatchRules(b, true);
    NameParsesBack(b.category.GetOr(""));
    if errs != [] then Failure(errs)
    else
      TrimIdempotent(b.title.value);
      Success(GalleryItem(
        Trim(b.title.value), b.imageUrl.value, b.description.GetOr(""),
        if b.category.Some? then ParseCategory(b.category.value).GetOr(DEFAULT_CATEGORY) else DEFAULT_CATEGORY,
        now))
  }

  predicate UpdateAccepted(u: GalleryInput) {
    Errors(u, false) == []
  }

  function Merge(g: GalleryItem, u: GalleryInput): (r: GalleryItem)
    ensures r.createdAt == g.createdAt
    ensures r.title == if u.title.Some? then Trim(u.title.value) else g.title
    ensures r.imageUrl == u.imageUrl.GetOr(g.imageUrl) && r.description == u.description.GetOr(g.description)
    ensures u.category.None? ==> r.category == g.category
    ensures u.category.Some? && u.category.value in CATEGORY_NAMES ==> CategoryName(r.category) == u.category.value
  {
    NameParsesBack(u.category.GetOr(""));
    GalleryItem(
      if u.title.Some? then Trim(u.title.value) else g.title,
      u.imageUrl.GetOr(g.imageUrl), u.description.GetOr(g.description),
      if u.category.Some? then ParseCategory(u.category.value).GetOr(g.category) else g.category,
      g.createdAt)
  }

  lemma MergeKeepsValid(g: GalleryItem, u: GalleryInput)
    requires UpdateAccepted(u) && Valid(g)
    ensures Valid(Merge(g, u))
  {
    ErrorsMatchRules(u, false);
    if u.title.Some? { TrimIdempotent(u.title.value); }
  }
}
