/** The news schema: a trimmed required title, required content, excerpt and author, a category enum. */
module NewsModel {
  import opened Wrappers
  import opened Schema
  import opened Http

  datatype Category = MatchReport | Transfer | Training | Announcement | Other

  const CATEGORY_NAMES: seq<string> := ["match", "transfer", "training", "announcement", "other"]

  function CategoryName(c: Category): (n: string)
    ensures n in CATEGORY_NAMES && ParseCategory(n) == Some(c)
  {
    match c
    case MatchReport => "match"
    case Transfer => "transfer"
    case Training => "training"
    case Announcement => "announcement"
    case Other => "other"
  }

  function ParseCategory(n: string): (r: Option<Category>)
    ensures r.Some? <==> n in CATEGORY_NAMES
  {
    if n == "match" then Some(MatchReport)
    else if n == "transfer" then Some(Transfer)
    else if n == "training" then Some(Training)
    else if n == "announcement" then Some(Announcement)
    else if n == "other" then Some(Other)
    else None
  }

  lemma NameParsesBack(n: string)
    ensures n in CATEGORY_NAMES ==> CategoryName(ParseCategory(n).value) == n
  {
  }

  const DEFAULT_CATEGORY: Category := Other
  const DEFAULT_PUBLISHED: bool := true

  /** A stored news item; `author` references a user document. */
  datatype News = News(
    title: string, content: string, excerpt: string, author: Id, image: string,
    category: Category, published: bool, createdAt: int)

  datatype NewsInput = NewsInput(
    title: Option<string>, content: Option<string>, excerpt: Option<string>, author: Option<Id>,
    image: Option<string>, category: Option<string>, published: Option<bool>)

  predicate Valid(n: News) {
    n.title != "" && Trim(n.title) == n.title && n.content != "" && n.excerpt != ""
  }

  function Errors(b: NewsInput, creating: bool): seq<FieldError> {
    CheckRequiredString(Field("title"), TrimOpt(b.title), creating)
    + CheckRequiredString(Field("content"), b.content, creating)
    + CheckRequiredString(Field("excerpt"), b.excerpt, creating)
    + Report(Field("author"), MissingValue(b.author, creating), Required)
    + CheckEnum(Field("category"), b.category, CATEGORY_NAMES, false, creating)
  }

  predicate Acceptable(b: NewsInput, creating: bool) {
    && (if b.title.None? then !creating else Trim(b.title.value) != "")
    && (if b.content.None? then !creating else b.content.value != "")
    && (if b.excerpt.None? then !creating else b.excerpt.value != "")
    && (b.author.None? ==> !creating)
    && (b.category.Some? ==> b.category.value in CATEGORY_NAMES)
  }

  lemma ErrorsMatchRules(b: NewsInput, creating: bool)
    ensures Errors(b, creating) == [] <==> Acceptable(b, creating)
  {
  }

  /** `News.create(body)` with `now` as the insert time. */
  function New(b: NewsInput, now: int): (r: Result<News, seq<FieldError>>)
    ensures r.Success? <==> Acceptable(b, true)
    ensures r.Failure? ==> r.error != []
    ensures r.Success? ==> Valid(r.value)
    ensures r.Success? ==>
              var n := r.value;
              && n.title == Trim(b.title.value) && n.content == b.content.value
              && n.excerpt == b.excerpt.value && n.author == b.author.value
              && n.image == b.image.GetOr("")
              && (b.category.None? ==> n.category == DEFAULT_CATEGORY)
              && (b.category.Some? ==> CategoryName(n.category) == b.category.value)
              && n.published == b.published.GetOr(DEFAULT_PUBLISHED)
              && n.createdAt == now
  {
    var errs := Errors(b, true);
    ErrorsMatchRules(b, true);
    NameParsesBack(b.category.GetOr(""));
    if errs != [] then Failure(errs)
    else
      TrimIdempotent(b.title.value);
      Success(News(
        Trim(b.title.value), b.content.value, b.excerpt.value, b.author.value, b.image.GetOr(""),
        if b.category.Some? then ParseCategory(b.category.value).GetOr(DEFAULT_CATEGORY) else DEFAULT_CATEGORY,
        b.published.GetOr(DEFAULT_PUBLISHED), now))
  }

  predicate UpdateAccepted(u: NewsInput) {
    Errors(u, false) == []
  }

  /** The `$set` of an update, `author` included when the body gives one. */
  function Merge(n: News, u: NewsInput): (r: News)
    ensures r.createdAt == n.createdAt
    ensures r.title == if u.title.Some? then Trim(u.title.value) else n.title
    ensures r.content == u.content.GetOr(n.content) && r.excerpt == u.excerpt.GetOr(n.excerpt)
    ensures r.author == u.author.GetOr(n.author) && r.image == u.image.GetOr(n.image)
    ensures u.category.None? ==> r.category == n.category
    ensures u.category.Some? && u.category.value in CATEGORY_NAMES ==> CategoryName(r.category) == u.category.value
    ensures r.published == u.published.GetOr(n.published)
  {
    NameParsesBack(u.category.GetOr(""));
    News(
      if u.title.Some? then Trim(u.title.value) else n.title,
      u.content.GetOr(n.content), u.excerpt.GetOr(n.excerpt), u.author.GetOr(n.author),
      u.image.GetOr(n.image),
      if u.category.Some? then ParseCategory(u.category.value).GetOr(n.category) else n.category,
      u.published.GetOr(n.published), n.createdAt)
  }

  lemma MergeKeepsValid(n: News, u: NewsInput)
    requires UpdateAccepted(u) && Valid(n)
    ensures Valid(Merge(n, u))
  {
    ErrorsMatchRules(u, false);
    if u.title.Some? { TrimIdempotent(u.title.value); }
  }
}
