# FC Vorpal Reapers — a Dafny model of the club site's content store and client rules

The FC Vorpal Reapers site is an Express and Mongoose server with a React client. It
keeps four content collections: players, matches, news and gallery items. Anyone may read
them. Only a signed-in administrator may create, update or delete.

This project models three parts of the site:

- **The server.** It covers the four schemas (required paths, enums, the shirt-number range,
  defaults and trimming), their CRUD routers, and the register, login and `/me` logic of
  the auth router.
- **The client pages.** It covers the rules in the pages that decide what is shown:
  - the upcoming and past fixtures, and the goal-scorer split;
  - the home page's next match, latest news and slideshow;
  - the gallery category filter;
  - the squad grouped by position.
- **The admin dashboard.** It covers the form guards and payload rules, the keyed
  form-state hook, and the image-upload guard.

Each collection is a `Collections.Store<T>`, a class that holds a map from ids to
records and a counter that issues fresh ids. Each handler that changes a collection is a
method on such a store. It returns a `Http.Response`, which is a status code plus a body.
Read handlers are functions over the store.

A body, as a schema sees it, is a record of optional values. A schema turns that body into
a stored record or into a list of path errors. Dates and `createdAt` are integer
timestamps, and the clock `now` is always a parameter. The React state cells of the app
become fields of a class: `AdminDashboard.Dashboard`, `UseForm.FormState` and
`HomePage.Slideshow`. Each of their handlers is a method that states the whole new state.

Modules:

- **Shared modules:**
  - `Wrappers` (Option, Result);
  - `Http` (ids, documents, responses);
  - `Schema` (path errors, `trim`, the per-path checks);
  - `Listing` (filter, stable sort, limit, with their laws);
  - `Collections`;
  - `Crud`, the handler shape shared by the four routers;
  - `Guard`, users, tokens and the `protect`/`admin` chain;
  - `Js`, client values: truthiness, `String(n)` and `parseInt`.
- **One module per source file:**
  - `PlayerModel`, `MatchModel`, `NewsModel`, `GalleryModel`;
  - `PlayerRoutes`, `MatchRoutes`, `NewsRoutes`, `GalleryRoutes`, `AuthRoutes`;
  - `AdminDashboard`, `MatchesPage`, `HomePage`, `GalleryPage`, `TeamPage`, `UseForm`,
    `FileUpload`.

Three behaviours of the code that are easy to misread:

- **A failed schema validation is a 500, not a 400.** Create and update send every thrown
  error, validation errors included, to the catch block. That block answers 500
  "Server error".
- **An update is validated path by path.** `findByIdAndUpdate` with `runValidators: true`
  checks only the paths the body sets, not the merged document. Those validators run
  before the id is looked up, so an invalid update aimed at an absent id is a 500, not a
  404.
- **The match `competition` default is "League".** The dashboard's own form starts at
  "Premier League".

## Model

| member | source | states |
|---|---|---|
| Schema.TrimStart | server/models/Player.js:7 | the result is a suffix of the input; everything dropped is white space; the result does not start with white space |
| Schema.TrimEnd | server/models/Player.js:7 | the result is a prefix; everything dropped is white space; the result does not end with white space |
| Schema.TrimEnds | server/models/Player.js:7 | a trimmed string neither starts nor ends with white space |
| Schema.TrimIdempotent | server/models/Player.js:7 | trimming a trimmed string changes nothing, so a stored trimmed name stays valid |
| Collections.EntriesBelow | server/routes/players.js:20 | lists exactly the stored documents with id below the bound, in strictly increasing id order |
| Collections.Store.constructor | server/routes/players.js:10 | a new collection is empty and its counter is zero |
| Collections.Store.Find | server/routes/players.js:30 | finds a document iff the id is stored, and returns that very record |
| Collections.Store.Entries | server/routes/players.js:20 | `find()`: every stored document exactly once, in insertion order |
| Collections.Store.Insert | server/routes/players.js:10 | `create` stores the record under a fresh id that was not in use; nothing else changes |
| Collections.Store.Replace | server/routes/players.js:43-47 | the write half of `findByIdAndUpdate`: only that id's record changes |
| Collections.Store.Remove | server/routes/players.js:61 | the write half of `findByIdAndDelete`: exactly that id is removed |
| Collections.DistinctIds | server/routes/news.js:23-25 | any selection drawn from the entries holds no id twice |
| Collections.QueryStore | server/routes/matches.js:30-33 | `find(p).sort(key).limit(n)` on a collection: at most n stored documents satisfying p, sorted, no id twice, a sub-multiset of the matching entries, and a matching document is left out only when n documents with no larger key are returned |
| Crud.Create | server/routes/players.js:8-15 | a denied chain answers with its own status and touches nothing; a validation failure is 500 and touches nothing; otherwise 201 with the stored document, inserted under a fresh id |
| Crud.Get | server/routes/players.js:28-38 | 200 with the stored document iff the id is stored, otherwise 404 with the resource's message |
| Crud.List | server/routes/players.js:18-25 | 200 with every stored document, each exactly once (a permutation), sorted by the key |
| Crud.Update | server/routes/players.js:41-55 | denied: its status, no change; rejected by the validators: 500, no change (even for an absent id); absent id: 404, no change; otherwise only that record becomes the merge and is returned |
| Crud.Delete | server/routes/players.js:58-68 | denied: no change; absent id: 404; otherwise exactly that record is removed and a confirmation is answered |
| Guard.ViewOf | server/routes/auth.js:82-84 | a reference definition of the public view (id, name, e-mail, role, no password); what callers get from it is proved in AuthRoutes.Me and Guard.Protect |
| Guard.GenerateToken | server/routes/auth.js:9-11 | a reference definition of the claims: only the user id, issued now, expiring 30 days later; its meaning is proved in Guard.TokenValidFor30Days |
| Guard.TokenValidFor30Days | server/routes/auth.js:9-11 | a fresh token is live for the 30 days after issue and dead from then on |
| Guard.Protect | server/routes/auth.js:82 | passes iff the token is present, correctly signed, not expired and its user still exists, and then attaches that user; otherwise 401. This is the reference for the chain; its consequences are proved in Guard.AdminOnlyOutcomes and AuthRoutes.Me |
| Guard.Admin | server/routes/players.js:8 | passes an administrator on unchanged, turns any other caller into 403, and keeps an earlier refusal; the combined chain is proved in Guard.AdminOnlyOutcomes |
| Guard.AdminOnlyOutcomes | server/routes/players.js:8 | the write chain gives 401 when `protect` refuses and 403 for a non-administrator; it passes iff the caller is a live administrator |
| AuthRoutes.SessionOf | server/routes/auth.js:34-40 | a reference definition of the answer: exactly id, name, e-mail, role and a token for that id; used by the proved contracts of AuthRoutes.Register, AuthRoutes.Login and AuthRoutes.LoginAfterRegister |
| AuthRoutes.FirstWithEmail | server/routes/auth.js:27 | `findOne({ email })`: a stored user with that e-mail, and none exactly when no user has it |
| AuthRoutes.RegisterErrors | server/routes/auth.js:14-22 | each of name, email and password is reported iff its rule fails (empty name, not an e-mail, under 6 characters); the list is empty iff all three hold |
| AuthRoutes.LoginErrors | server/routes/auth.js:47-54 | email and password are reported iff not an e-mail or empty; the list is empty iff both hold |
| AuthRoutes.NewUser | server/routes/auth.js:32 | a reference definition of the stored user (trimmed name, normalised e-mail, hashed password, regular role); AuthRoutes.Register proves that exactly this user is inserted and e-mails stay unique |
| AuthRoutes.Register | server/routes/auth.js:14-44 | invalid body: 400 with the errors, no change; e-mail taken after normalising: 400 "User already exists", no change; otherwise exactly one user is inserted and 201 returns its session; e-mails stay unique |
| AuthRoutes.Login | server/routes/auth.js:47-79 | invalid body: 400; unknown e-mail and wrong password both give the same 401 "Invalid credentials"; a 200 always carries the session of a stored user with that e-mail whose password matches; with unique e-mails, a matching password always gives 200; nothing is written |
| AuthRoutes.LoginAfterRegister | server/routes/auth.js:16 | a user stored under an e-mail's normalised form logs in with that e-mail and a matching password, so the two routes normalise alike |
| AuthRoutes.Me | server/routes/auth.js:82-84 | 200 with the caller's own view iff `protect` passes, administrator or not; otherwise 401 |
| PlayerModel.PositionName | server/models/Player.js:9-13 | every position has one of the four enum names, and that name parses back to it |
| PlayerModel.ParsePosition | server/models/Player.js:9-13 | a string parses iff it is one of the four enum names |
| PlayerModel.ParseNamesPosition | server/models/Player.js:9-13 | a valid name parses to the position that it names |
| PlayerModel.ErrorsMatchRules | server/models/Player.js:4-27 | no errors iff every required path is present and passes its rule; a number over 99 or under 1 reports that bound |
| PlayerModel.New | server/models/Player.js:4-47 | a body is accepted iff name (after trimming), position, number in 1..99, age and nationality are all given and valid; the record has the trimmed name, defaults 0/0/''/'' and `createdAt` now |
| PlayerModel.Merge | server/models/Player.js:4-43 | each given path is replaced (the name trimmed), every other path and `createdAt` are kept |
| PlayerModel.MergeKeepsValid | server/models/Player.js:4-27 | an update that passes its validators keeps a valid player valid |
| PlayerModel.MergeLaws | server/routes/players.js:43-47 | an empty update changes nothing, and applying an update twice is applying it once |
| PlayerRoutes.Create | server/routes/players.js:8-15 | denied: no change; invalid body: 500 "Server error", no change; otherwise 201 with the player stored under a fresh id; every stored player stays valid |
| PlayerRoutes.List | server/routes/players.js:18-25 | every player exactly once, in ascending shirt-number order |
| PlayerRoutes.Get | server/routes/players.js:28-38 | the stored player iff the id is stored, otherwise 404 "Player not found" |
| PlayerRoutes.Update | server/routes/players.js:41-55 | denied: no change; rejected update: 500; absent id: 404 "Player not found"; otherwise only that player becomes the merge and is returned |
| PlayerRoutes.Delete | server/routes/players.js:58-68 | denied: no change; absent id: 404; otherwise only that player is removed and a following get is 404 |
| MatchModel.StatusName | server/models/Match.js:32-36 | every status has one of the four enum names, and it parses back |
| MatchModel.ParseStatus | server/models/Match.js:32-36 | parses iff the name is scheduled, live, completed or cancelled |
| MatchModel.SideName | server/models/Match.js:56-60 | every side is named home or away, and the name parses back |
| MatchModel.ParseSide | server/models/Match.js:56-60 | parses iff the name is home or away |
| MatchModel.NamesParseBack | server/models/Match.js:32-60 | valid status and side names parse to what they name |
| MatchModel.ScorerErrorsMatchRules | server/models/Match.js:41-61 | a scorer passes iff its name is given, its team is home or away and any goals given are at least 1 |
| MatchModel.ScorersErrorsFromMatchRules | server/models/Match.js:41-61 | an array of scorers passes iff every element passes |
| MatchModel.ErrorsMatchRules | server/models/Match.js:4-61 | no errors iff the five required paths are given, a given status is in the enum and every scorer passes |
| MatchModel.BuildScorer | server/models/Match.js:41-61 | keeps the player reference and name, defaults goals to 1, and an accepted element becomes a valid scorer with its team |
| MatchModel.BuildScorers | server/models/Match.js:41-61 | the cast array keeps the elements one for one, in order |
| MatchModel.New | server/models/Match.js:4-65 | accepted iff the rules hold; scores default to null, status to scheduled, competition to "League", scorers to the given array in order, `createdAt` to now |
| MatchModel.ScoresUnchecked | server/models/Match.js:24-31 | changing the scores never changes whether a match is accepted, so nothing ties scorers to the score |
| MatchModel.Merge | server/models/Match.js:4-61 | each given path is replaced (a scorer array as a whole), the rest and `createdAt` are kept |
| MatchModel.MergeKeepsValid | server/models/Match.js:4-61 | an accepted update keeps a valid match valid |
| MatchRoutes.Create | server/routes/matches.js:8-15 | denied: no change; invalid: 500; otherwise 201 with the match as given, scorers in their order |
| MatchRoutes.List | server/routes/matches.js:18-25 | every match exactly once, ascending by date |
| MatchRoutes.Upcoming | server/routes/matches.js:28-38 | at most 5 matches, ascending by date, each a stored match that is scheduled and dated now or later; no match and no id occurs twice (a sub-multiset of the due matches); a stored due match is left out only when 5 matches no later than it are shown |
| MatchRoutes.Dispatch | server/routes/matches.js:5-41 | under first-match, case-insensitive routing over the registered order, a segment that is `upcoming` in any letter case reaches the upcoming query and every other segment reaches the id lookup with that segment |
| MatchRoutes.Lower | server/routes/matches.js:5 | ASCII lower case, the folding of the default case-insensitive router: same length, no upper-case letter left, every other character kept |
| MatchRoutes.LowerKeepsLower | server/routes/matches.js:5 | a string without upper-case letters is its own lower case |
| MatchRoutes.LowerIdempotent | server/routes/matches.js:5 | lower-casing twice is lower-casing once |
| MatchRoutes.CaseIgnored | server/routes/matches.js:5-28 | `Upcoming` and `UPCOMING` run the upcoming query, while `upcomings` is an id |
| MatchRoutes.FirstFit | server/routes/matches.js:28-41 | the chosen route fits the segment and no earlier route does; none is chosen only when no route fits |
| MatchRoutes.RegistrationOrderMatters | server/routes/matches.js:28-41 | with `/:id` registered first, `upcoming` would be taken as an id; in the registered order it reaches the upcoming query |
| MatchRoutes.Get | server/routes/matches.js:41-51 | the stored match iff the id is stored, otherwise 404 "Match not found" |
| MatchRoutes.Update | server/routes/matches.js:55-69 | denied: no change; rejected: 500; absent id: 404; otherwise only that match becomes the merge |
| MatchRoutes.Delete | server/routes/matches.js:72-82 | denied: no change; absent id: 404; otherwise only that match is removed, and a following get is 404 |
| NewsModel.CategoryName | server/models/News.js:26-30 | every category has one of the five enum names, and it parses back |
| NewsModel.ParseCategory | server/models/News.js:26-30 | parses iff the name is match, transfer, training, announcement or other |
| NewsModel.NameParsesBack | server/models/News.js:26-30 | a valid name parses to the category it names |
| NewsModel.ErrorsMatchRules | server/models/News.js:4-30 | no errors iff the title (after trimming), content, excerpt and author are given and a given category is in the enum |
| NewsModel.New | server/models/News.js:4-38 | accepted iff the rules hold; the title is trimmed, the image defaults to '', the category to other, `published` to true and `createdAt` to now |
| NewsModel.Merge | server/models/News.js:4-34 | each given path is replaced (the title trimmed, an author in the body too), the rest kept |
| NewsModel.MergeKeepsValid | server/models/News.js:4-30 | an accepted update keeps valid news valid |
| NewsRoutes.Create | server/routes/news.js:8-18 | the author is always the caller's id, whatever the body says; otherwise as create: 500 on invalid, 201 with the stored item |
| NewsRoutes.Show | server/routes/news.js:24 | a reference definition of `populate`: the author is expanded to its id and name iff that user exists; the list-level facts are proved in NewsRoutes.ShownMembers, NewsRoutes.ShownOrder and NewsRoutes.ShownIds |
| NewsRoutes.ShowAll | server/routes/news.js:24 | the input shown item by item, in order and with the same ids; NewsRoutes.ShownMembers, NewsRoutes.ShownOrder and NewsRoutes.ShownIds prove what this means for membership, order and ids |
| NewsRoutes.ShownMembers | server/routes/news.js:24 | the shown list holds exactly the shown forms of the input documents |
| NewsRoutes.ShownOrder | server/routes/news.js:25 | showing keeps the newest-first order |
| NewsRoutes.ShownIds | server/routes/news.js:24 | showing keeps the ids, so a list without a repeated id stays without one |
| NewsRoutes.PublishedShown | server/routes/news.js:23-25 | the published items, shown: newest first, each a stored published item with its author expanded, every published item present, no id twice |
| NewsRoutes.List | server/routes/news.js:21-30 | exactly the published items, each shown once (no id twice), with the newest first and the author expanded (proved in NewsRoutes.PublishedShown) |
| NewsRoutes.PublishedNewest | server/routes/news.js:23-25 | exactly the published stored items, no id twice, newest first |
| NewsRoutes.Get | server/routes/news.js:33-43 | any stored item by id, published or not, with its author expanded; otherwise 404 "News not found" |
| NewsRoutes.Update | server/routes/news.js:46-60 | the body as given, without stamping the author again; rejected: 500; absent id: 404; otherwise only that item changes |
| NewsRoutes.Delete | server/routes/news.js:63-73 | denied: no change; absent id: 404; otherwise only that item is removed |
| GalleryModel.CategoryName | server/models/Gallery.js:17-21 | every category has one of the five enum names, and it parses back |
| GalleryModel.ParseCategory | server/models/Gallery.js:17-21 | parses iff the name is match, training, team, events or other |
| GalleryModel.NameParsesBack | server/models/Gallery.js:17-21 | a valid name parses to the category it names |
| GalleryModel.ErrorsMatchRules | server/models/Gallery.js:4-21 | no errors iff the title (after trimming) and image URL are given and a given category is in the enum |
| GalleryModel.New | server/models/Gallery.js:4-25 | accepted iff the rules hold; the title is trimmed, the description defaults to '', the category to other and `createdAt` to now |
| GalleryModel.Merge | server/models/Gallery.js:4-21 | given paths replaced (the title trimmed), the rest kept |
| GalleryModel.MergeKeepsValid | server/models/Gallery.js:4-21 | an accepted update keeps a valid item valid |
| GalleryRoutes.Create | server/routes/gallery.js:8-15 | denied: no change; any failure: 500; otherwise 201 with the stored item |
| GalleryRoutes.List | server/routes/gallery.js:18-25 | every item exactly once, unfiltered, newest first |
| GalleryRoutes.Get | server/routes/gallery.js:28-38 | the stored item iff the id is stored, otherwise 404 "Gallery item not found" |
| GalleryRoutes.Update | server/routes/gallery.js:41-55 | denied: no change; rejected: 500; absent id: 404; otherwise only that item becomes the merge |
| GalleryRoutes.Delete | server/routes/gallery.js:58-68 | otherwise only that item is removed, "Gallery item deleted successfully", and a following get is 404 |
| Listing.Filter | client/src/components/Matches.jsx:19-20 | keeps exactly the elements that satisfy the predicate, never more than the input, as a sub-multiset of it |
| Listing.FilterAppend | client/src/components/Matches.jsx:24-25 | filtering distributes over concatenation |
| Listing.FilterSplitAt | client/src/components/Matches.jsx:24-25 | filtering around one element splits into the filtered prefix, that element if kept, and the filtered suffix |
| Listing.FilterKeepsOrder | client/src/components/Gallery.jsx:30 | two kept elements keep their relative order |
| Listing.FilterHead | client/src/components/Home.jsx:13-14 | the first kept element is the first element of the input that satisfies the predicate |
| Listing.FilterPartition | client/src/components/Matches.jsx:24-25 | filtering by a predicate and by its complement splits the multiset of the input exactly |
| Listing.FilterPartitionSizes | client/src/components/Matches.jsx:24-25 | the two complementary filters' lengths add up to the input's |
| Listing.SortedCons | server/routes/players.js:20 | a key no larger than the head's extends a sorted list |
| Listing.Insert | server/routes/players.js:20 | insertion into a sorted list stays sorted and is a permutation of the list plus the element |
| Listing.SortBy | server/routes/players.js:20 | `sort`: the result is sorted by the key and is a permutation of the input |
| Listing.Take | server/routes/matches.js:33 | `limit(n)`: the first n elements, or all when fewer |
| Listing.TakeIsSub | server/routes/matches.js:33 | a limit never adds or repeats an element: its multiset is within the input's |
| Listing.TakeOfSorted | server/routes/matches.js:31-33 | a prefix of a sorted list is sorted, and anything left out is not before anything kept |
| Listing.Select | server/routes/news.js:23-25 | filter then sort: exactly the matching elements, each once, sorted |
| Listing.Query | server/routes/matches.js:30-33 | filter, sort, limit: at most n matching elements, sorted, each at most as often as the filtered input holds it, and nothing left out precedes what is kept |
| Listing.DistinctCountsOnce | server/routes/news.js:23-25 | a list without repeats counts every element at most once |
| Listing.CountedOnceNotRepeated | server/routes/news.js:23-25 | an element counted at most once cannot sit at two positions |
| Listing.DistinctSub | server/routes/news.js:23-25 | whatever is drawn (as a sub-multiset) from a list without repeats has no repeats |
| Js.Decimal | client/src/components/AdminDashboard.jsx:199-200 | the decimal digits of a number, with no leading zero |
| Js.ParseInt | client/src/components/AdminDashboard.jsx:199-200 | `parseInt` fails iff no digits follow the leading white space, the sign and a `0x` prefix |
| Js.ParseIntOfToString | client/src/components/AdminDashboard.jsx:230 | `parseInt(String(n))` gives `n` back for every integer |
| AdminDashboard.EmptyFormsRefused | client/src/components/AdminDashboard.jsx:21-45 | the freshly reset player and match forms are refused by the guards, and the player form starts with goals and assists at 0 |
| AdminDashboard.ScoreField | client/src/components/AdminDashboard.jsx:199-200 | a falsy score becomes null; a typed one becomes its `parseInt`; a non-zero number stays that number |
| AdminDashboard.Payload | client/src/components/AdminDashboard.jsx:197-202 | a reference definition: the form with both scores normalised, everything else as typed; the round trip with editing is proved in AdminDashboard.ScoreRoundTrip |
| AdminDashboard.LoadedScore | client/src/components/AdminDashboard.jsx:230-231 | a reference definition: a null score loads as '', a number as that number; proved against sending in AdminDashboard.ScoreRoundTrip |
| AdminDashboard.LoadedScorer | client/src/components/AdminDashboard.jsx:220-236 | a reference definition: a stored scorer loads with its name, goals and team name |
| AdminDashboard.Loaded | client/src/components/AdminDashboard.jsx:220-236 | a reference definition of the edit form (texts, given date text, competition or "Premier League", status name, loaded scores, scorers in order); AdminDashboard.EditedMatchPassesGuard proves a loaded valid match passes the guard iff its date text is non-empty |
| AdminDashboard.ScoreRoundTrip | client/src/components/AdminDashboard.jsx:199-200 | loading a score and sending it back gives it again, except that a stored 0 comes back as null |
| AdminDashboard.EditedMatchPassesGuard | client/src/components/AdminDashboard.jsx:190-193 | a valid stored match loaded for editing passes the match guard iff its date text is non-empty |
| AdminDashboard.RemoveAt | client/src/components/AdminDashboard.jsx:426-430 | `splice(i, 1)`: exactly element i is gone, the rest keep their order, and an index past the end changes nothing |
| AdminDashboard.RemoveUndoesAppend | client/src/components/AdminDashboard.jsx:414-430 | removing the last entry undoes appending it |
| AdminDashboard.GoalsInput | client/src/components/AdminDashboard.jsx:756 | the goal count is never 0: the parsed number when that is non-zero, otherwise 1 |
| AdminDashboard.GoalsInputOfToString | client/src/components/AdminDashboard.jsx:756 | typing a non-zero count gives that count, and typing 0 gives 1 |
| AdminDashboard.PlayerErrorText | client/src/components/AdminDashboard.jsx:147 | the server's message when it sent one, otherwise "Error saving player" |
| AdminDashboard.Dashboard.constructor | client/src/components/AdminDashboard.jsx:21-46 | the forms start at their defaults, with nothing being edited and no message |
| AdminDashboard.Dashboard.SavePlayer | client/src/components/AdminDashboard.jsx:127-150 | an unfilled form: no request, "Please fill all required fields"; otherwise PUT to the edited id or POST; on success the form resets and the edited id clears; on failure the form is kept |
| AdminDashboard.Dashboard.SaveMatch | client/src/components/AdminDashboard.jsx:189-218 | the same for matches, with the normalised payload and "Error saving match" |
| AdminDashboard.Dashboard.EditMatch | client/src/components/AdminDashboard.jsx:220-236 | the match form becomes the loaded match and its id is the one being edited; nothing else changes |
| AdminDashboard.Dashboard.AddGoalScorer | client/src/components/AdminDashboard.jsx:414-424 | an empty name: "Please enter player name" and no change; otherwise the entry is appended at the end and the scorer form resets to {'', 1, home} |
| AdminDashboard.Dashboard.RemoveGoalScorer | client/src/components/AdminDashboard.jsx:426-430 | only the scorer list changes, and it loses exactly the given entry |
| AdminDashboard.Dashboard.SetScorerGoals | client/src/components/AdminDashboard.jsx:756 | only the scorer form's goal count changes, to the parsed input or 1 |
| MatchesPage.Upcoming | client/src/components/Matches.jsx:19 | exactly the matches dated now or later, of any status, each at most as often as fetched; the order is proved in MatchesPage.UpcomingKeepsOrder |
| MatchesPage.UpcomingKeepsOrder | client/src/components/Matches.jsx:19 | two upcoming matches keep the order of the fetched list |
| MatchesPage.Past | client/src/components/Matches.jsx:20 | exactly the completed matches dated before now, each at most as often as fetched; the order is proved in MatchesPage.PastKeepsOrder |
| MatchesPage.PastKeepsOrder | client/src/components/Matches.jsx:20 | two past matches keep the order of the fetched list |
| MatchesPage.SectionsDisjoint | client/src/components/Matches.jsx:19-20 | with one clock reading, no match is in both sections, and an earlier match that was not completed is in neither |
| MatchesPage.SectionsOverlapBetweenReadings | client/src/components/Matches.jsx:19-20 | with an earlier reading for `upcoming` and a later one for `past`, a match is in both sections exactly when it is completed and dated between the two readings |
| MatchesPage.ShowsEmptyState | client/src/components/Matches.jsx:135 | the empty message shows iff every match is earlier and not completed, so iff both sections are empty |
| MatchesPage.HasScore | client/src/components/Matches.jsx:23 | true iff both scores are present; what this means for a created match is proved in MatchesPage.CreatedScoreShown |
| MatchesPage.CreatedScoreShown | client/src/components/Matches.jsx:23 | a created match shows a score iff the body gave both scores as numbers; a body without a home score never shows one |
| MatchesPage.ScorersFor | client/src/components/Matches.jsx:24-25 | exactly the scorers of that side; none when the array is missing |
| MatchesPage.ScorersPartition | client/src/components/Matches.jsx:24-25 | the home and away lists split the scorers, each exactly once |
| MatchesPage.ScorersKeepOrder | client/src/components/Matches.jsx:24-25 | each side keeps the order the scorers were recorded in |
| HomePage.NextMatch | client/src/components/Home.jsx:13-14 | none iff every match is earlier than now; otherwise the first listed match dated now or later |
| HomePage.LatestNews | client/src/components/Home.jsx:18 | the first three items, or all when there are fewer |
| HomePage.TeamImages | client/src/components/Home.jsx:23 | exactly the team-category items, each at most as often as received (a sub-multiset); the order is proved in HomePage.TeamImagesKeepOrder |
| HomePage.TeamImagesKeepOrder | client/src/components/Home.jsx:23 | two team photos keep the order the server sent them in |
| HomePage.NextIndex | client/src/components/Home.jsx:38-40 | stays below n, and steps to the following slide, wrapping from the last to 0 |
| HomePage.PrevIndex | client/src/components/Home.jsx:42-44 | stays below n, and steps to the preceding slide, wrapping from 0 to the last |
| HomePage.PrevUndoesNext | client/src/components/Home.jsx:38-44 | previous after next, and next after previous, is the original slide |
| HomePage.Advance | client/src/components/Home.jsx:30-35 | k ticks of the rotation stay below n |
| HomePage.AdvanceIsModular | client/src/components/Home.jsx:30-35 | k ticks from slide i reach slide (i + k) mod n |
| HomePage.FullTurn | client/src/components/Home.jsx:30-35 | n ticks bring the show back to where it started |
| HomePage.SingleImageStays | client/src/components/Home.jsx:30 | with one image both steps would stay on slide 0, and one image does not rotate while two do |
| HomePage.Slideshow.constructor | client/src/components/Home.jsx:8-9 | no images, slide 0 |
| HomePage.Slideshow.Load | client/src/components/Home.jsx:23-24 | the images become the team photos; the slide index is kept |
| HomePage.Slideshow.Next | client/src/components/Home.jsx:30-40 | reachable only while the show rotates (more than one image); the slide becomes the next index, still in range; the images are kept |
| HomePage.Slideshow.Prev | client/src/components/Home.jsx:42-44 | reachable only while the show rotates; the slide becomes the previous index, still in range |
| HomePage.Slideshow.GoTo | client/src/components/Home.jsx:72-92 | reachable only while the show rotates; a dot selects exactly its own slide |
| GalleryPage.CategoriesAreAllThenSchema | client/src/components/Gallery.jsx:27 | the buttons are `all` followed by the five schema categories, none of which is `all` |
| GalleryPage.Filtered | client/src/components/Gallery.jsx:28-30 | `all` gives the list unchanged; any other choice gives exactly the items of that category, each at most as often as fetched; the order is proved in GalleryPage.FilteredKeepsOrder |
| GalleryPage.FilteredKeepsOrder | client/src/components/Gallery.jsx:30 | two items of the selected category keep the order of the fetched list |
| GalleryPage.ShowsNoImages | client/src/components/Gallery.jsx:65 | the message shows iff the filtered list is empty, stated directly for `all` and for a category |
| TeamPage.Rank | client/src/components/Team.jsx:19 | each position's place in the fixed list Goalkeeper, Defender, Midfielder, Forward |
| TeamPage.GroupsExact | client/src/components/Team.jsx:36-38 | every group is non-empty and holds its position's players |
| TeamPage.GroupsOrdered | client/src/components/Team.jsx:19-36 | groups appear in the fixed position order |
| TeamPage.GroupsComplete | client/src/components/Team.jsx:36-38 | from a given place in the position list onwards, every position that has players has its group |
| TeamPage.GroupsEmptyIff | client/src/components/Team.jsx:38 | there are no groups iff there are no players |
| TeamPage.Groups | client/src/components/Team.jsx:36-38 | each group holds exactly the players of its position; empty groups are skipped; the groups are in the fixed order and none is missing |
| TeamPage.GroupKeepsOrder | client/src/components/Team.jsx:37 | a group keeps the order the players were received in |
| TeamPage.OrZero | client/src/components/Team.jsx:89-94 | the shown count is never null or blank; a falsy count shows 0 and any other value as it is |
| TeamPage.StoredCountsShownAsIs | client/src/components/Team.jsx:89-94 | for every stored player, `|| 0` shows the stored goals and assists unchanged |
| TeamPage.ShowsEmptyRoster | client/src/components/Team.jsx:108 | the empty-roster message shows iff there are no players |
| UseForm.ClearError | client/src/hooks/useForm.js:18-23 | only the named error changes, to '' and only when it was set; the keys are the same |
| UseForm.ClearErrorIdempotent | client/src/hooks/useForm.js:18-23 | clearing an error twice is clearing it once |
| UseForm.FormState.constructor | client/src/hooks/useForm.js:7-9 | the values are the initial ones and there are no errors |
| UseForm.FormState.HandleChange | client/src/hooks/useForm.js:11-24 | only that key's value changes, and its error is cleared if it was set |
| UseForm.FormState.ResetForm | client/src/hooks/useForm.js:26-29 | the values are again exactly the initial ones, and the errors are `{}` |
| UseForm.FormState.SetFieldValue | client/src/hooks/useForm.js:31-36 | only that key's value changes; the errors are untouched |
| FileUpload.HandleFileSelect | client/src/utils/fileUpload.js:12-31 | no file: null without error; not `image/`: "Please select an image file"; over 5 MiB: "File size must be less than 5MB"; a failed read: "Error reading file"; otherwise the data URL |
| FileUpload.GuardOrder | client/src/utils/fileUpload.js:16-23 | for every image, any size up to and including 5 MiB is handled like an empty file and one byte more is refused as too large; for a non-image neither the size nor the reader matters, so the type check comes first |
| FileUpload.ReadOnlyWhenAccepted | client/src/utils/fileUpload.js:13-30 | the read outcome matters only for a present image within the limit |

## Left out

- **Missing source files.** The middleware `server/middleware/auth.js` and the user model
  `server/models/User.js` are not part of this model.
  - `Guard.Protect` and `Guard.Admin` follow their documented behaviour: 401 for a missing,
    forged or expired token or a deleted user, and 403 for a non-administrator.
  - The pre-save hash and `comparePassword` become the parameters `hash` and `compare`.
- **Foreign code as parameters.**
  - JWT signing and verification become a signature flag on the credential.
  - `isEmail` and `normalizeEmail` become parameters.
- **`User.create` failing.** A failed `User.create` (its own 500) is not modelled.
  `AuthRoutes.Register` assumes the insert succeeds.
- **Database plumbing.**
  - The connection setup is not modelled.
  - A malformed id is a cast error, which is a 500; the ids here are natural numbers, so it
    does not arise.
  - Other thrown database errors are not modelled either.
- **What a body can carry.**
  - Unknown paths, explicit `null` for string paths, and `_id` or `createdAt` in a body are
    not modelled.
  - A body is a record of optional, already cast values, so cast failures do not arise.
- **Sort order of equal keys.** Equal MongoDB sort keys may come back in any order. The
  model uses one stable sort. Its contracts state only sortedness and permutation, which
  hold for any order of ties.
- **Timers.** The `setTimeout` message clearing and the `setInterval` driver are left out.
  Only the index update of a tick (`HomePage.Slideshow.Next`) is modelled.
- **Files and dates.**
  - `fileToBase64` and `FileReader` become the read outcome, a parameter.
  - Date parsing and `toISOString` are left out: dates are integers, and the edit form's
    date text is a parameter of `AdminDashboard.Dashboard.EditMatch`.
  - The rendered strings from `toLocaleDateString` are left out too.
- **Other dashboard handlers.** `handleEditPlayer`, the cancel and delete handlers, the news
  and gallery save and edit handlers, the image-upload handlers, `loadData` and the tabs
  are not modelled. The axios requests become the `Request` value a save returns, and the
  server's answer becomes the `Outcome` parameter.
- **Concurrency.** The `Promise.all` loading and every network interleaving are left out.
- **Rendering.** All JSX markup, the application's routing, the login, register and news
  pages, and the auth context are left out.
- AdminDashboard.Dashboard.RemoveGoalScorer: the index is a `nat`, so `splice` with a negative index is not modelled. The dashboard only passes a rendered row's index.
- AdminDashboard.ScoreField: a score cell holding a numeric 0 exists only through edit loading, and it is modelled by `Num(0)` being falsy. Floating-point and `NaN` cells are not modelled; `parseInt` giving NaN becomes `None`, which is JSON null on the wire.
- **Numbers are integers.** The schemas' Number paths are modelled as `int`: the player's `number`, `age`, `goals` and `assists`, the match scores and a scorer's `goals`. Mongoose also accepts fractional values there, so a shirt number of 7.5 would pass the 1..99 bounds and be stored. Fractional body values are not modelled.
- Js.ToString: only integer `String(n)` is modelled. Exponent forms of large numbers are left out.
- MatchesPage.SectionsDisjoint: the clock is read once for both sections here. Matches.jsx reads `new Date()` afresh in every filter callback, and `past` is computed after `upcoming`. The lemma holds only for one shared reading. MatchesPage.SectionsOverlapBetweenReadings states the case of two readings: a completed match dated between them is shown in both sections. Per-callback readings within one filter are collapsed into one.
- MatchRoutes.Lower: only ASCII letters are folded. A case-insensitive JavaScript regular expression also folds other letters, such as `É` to `é`. A literal route with non-ASCII letters does not occur here.
- HomePage.Slideshow.Next: requires more than one image, as do `Prev` and `GoTo`. The buttons, the dots and the rotation timer exist only then. With no image, the source's `% 0` would give NaN.
