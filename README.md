# Next.js full-stack blog: a Dafny model of its logic

This project models the deterministic core of a blog built on Next.js and MongoDB (through
Mongoose). It covers four parts:

- **Posts.** The post schema, its `pre("validate")` and `pre("save")` hooks, and how a slug and
  an excerpt are derived. It also covers `POST /api/posts` (admin check, required fields, image
  upload outcome, persist, error mapping) and the three read routes: `GET /api/posts`,
  `/api/posts/search` and `/api/posts/latest`. Each read route is filter, sort, skip/limit,
  projection and page arithmetic.
- **Newsletter.** The subscriber schema with its two email patterns, written as hand-made
  recognisers. The subscribe and unsubscribe routes act on a store keyed by normalised email:
  absent, then active, then inactive and back, and a record is never deleted. The paged
  subscriber listing is modelled too.
- **Client screens.** The two search screens (filter, sort, nine-at-a-time window, "show more",
  submit parameters). The dashboard's comment and subscriber panels (filters, counts, local
  updates after approve and delete, selecting emails, export text). The blog listing (category
  from the URL, request, reply reading, ten-at-a-time window, category badge, reading time).
- **JavaScript and Mongoose built-ins the code relies on.** `parseInt(x) || d`, `x || d`,
  `Math.ceil`, ASCII `toLowerCase` and `trim`, `split`/`join`, a stable sort on a two-part key,
  and `skip`/`limit` with MongoDB's treatment of negative values.

Code that changes state in place is modelled as classes, each method proved against a
specification function:

- the post document and its hooks, and the post store with its unique slug;
- the subscriber store;
- the React state of each screen.

Everything that only computes is modelled as functions and lemmas.

The slug's last step, `trim()`, removes only whitespace, and none is left by then, so a
leading or trailing space or hyphen survives as a hyphen: `" Hello"` gives `"-hello"`
(`Slug.SlugKeepsLeadingHyphen`, `Slug.SlugLeadingSpaceExample`).

Three consequences of the code as written are proved as lemmas:

- The blog listing reads a `success` field that `GET /api/posts` never sends, so it shows no
  posts. This is under "Findings" below.
- The blog listing leaves the route's default limit of 10 in place, and its window also starts
  at 10. So "see more" can never appear (`BlogContent.NeverMoreToSee`).
- The subscriber panel requests only the first page of 20. Its "Total Subscribers" card
  therefore counts at most 20 records (`DashEmails.PanelSeesFirstPage`).

## Model

| member | source | states |
|---|---|---|
| Slug.SlugShape | src/app/api/posts/route.js:9-16 | every slug is made of `a-z`, `0-9` and `-` only, with no two hyphens in a row |
| Slug.SlugTrimIsNoOp | src/app/api/posts/route.js:13-15 | the final `trim()` never has work to do: the slug is the hyphen-collapsed text |
| Slug.SlugIdempotent | src/app/api/posts/route.js:9-16 | slugging a slug changes nothing |
| Slug.SlugFixedPoint | src/app/api/posts/route.js:9-16 | any text of slug shape is its own slug |
| Slug.SlugKeepsLeadingHyphen | src/app/api/posts/route.js:12-15 | a title starting with a space or a hyphen gives a slug starting with `-` |
| Slug.SlugEmptyWhenNothingKept | src/app/api/posts/route.js:12 | a title with no letter, digit, space or hyphen gives the empty slug |
| Slug.SlugEmptyOfTrimmed | src/app/api/posts/route.js:9-16 | a title giving the empty slug still gives it once trimmed |
| Slug.SlugExample | src/app/api/posts/route.js:9-16 | `"Hello, World! 2024"` gives `"hello-world-2024"` |
| Slug.SlugLeadingSpaceExample | src/app/api/posts/route.js:12-15 | `" Hello"` gives `"-hello"` |
| Slug.SlugPunctuationExample | src/app/api/posts/route.js:12 | `"!!!"` gives `""` |
| Slug.KeepSlugChars | src/app/api/posts/route.js:12 | only `[a-z0-9 -]` survives, and text made only of those is unchanged |
| Slug.HyphenateSpaceRuns | src/app/api/posts/route.js:13 | no whitespace is left, and every character is a hyphen or came from the input |
| Slug.CollapseHyphenRuns | src/app/api/posts/route.js:14 | no two hyphens in a row, and every character came from the input |
| Excerpt.StripTags | src/app/api/posts/route.js:87 | stripping never lengthens the text and adds no character |
| Excerpt.StripLeavesNoTag | src/app/api/posts/route.js:87 | after stripping, no `<` is followed later by a `>` |
| Excerpt.StripWithoutTags | src/app/api/posts/route.js:87 | text with no closed tag is left unchanged |
| Excerpt.StripIdempotent | src/app/api/posts/route.js:87 | stripping twice is stripping once |
| Excerpt.StripPlainText | src/app/api/posts/route.js:87 | text without `<` is unchanged |
| Excerpt.StripTagsStep | src/app/api/posts/route.js:87 | a leading `<` goes together with everything up to its first `>` |
| Excerpt.UnclosedExample | src/app/api/posts/route.js:87 | a `<` with no later `>` survives (`"a<b"`) |
| Excerpt.ExcerptExample | src/app/api/posts/route.js:87 | `"<p>Hi</p>"` strips to `"Hi"` |
| Excerpt.ExcerptOf | src/app/api/posts/route.js:88-89 | an excerpt is at most 153 characters long |
| Excerpt.ExcerptShape | src/app/api/posts/route.js:88-89 | the stripped text itself when it has at most 150 characters; otherwise its first 150 followed by `"..."` |
| Excerpt.ExcerptHasNoTag | src/app/api/posts/route.js:87-89 | no closed tag survives into an excerpt |
| PostModel.NewComment | src/lib/models/post.model.js:4-28 | a new comment is unapproved, dated now, with its text paths trimmed |
| PostModel.Cast | src/lib/models/post.model.js:30-84 | `published` defaults to false, `publishedAt` to now, comments to none; the content and category are kept |
| PostModel.CastTrims | src/lib/models/post.model.js:32-79 | title, slug, excerpt, author and every tag are stored trimmed |
| PostModel.CastDefaults | src/lib/models/post.model.js:65-72 | a post created without `published` and `publishedAt` is a draft dated now |
| PostModel.HookSlug | src/lib/models/post.model.js:87-94 | a hook's slug has slug shape |
| PostModel.HookSlugIsGenerated | src/lib/models/post.model.js:87-94 | the `trim` setter adds nothing: the hook's slug is exactly `generateSlug(title)`, the same function as the route's |
| PostModel.HookExcerpt | src/lib/models/post.model.js:103-108 | a hook's excerpt is at most 153 characters and trimmed |
| PostModel.ValidateHook | src/lib/models/post.model.js:113-118 | an empty slug of a titled post is filled from the title; nothing else changes |
| PostModel.SaveHook | src/lib/models/post.model.js:97-110 | slug filled only when the title was modified and the slug is empty; excerpt derived only when the content was modified and the excerpt is empty; nothing else changes |
| PostModel.HooksKeepSetFields | src/lib/models/post.model.js:97-118 | neither hook overwrites a set slug or excerpt |
| PostModel.HooksIdempotent | src/lib/models/post.model.js:97-118 | running a hook twice is running it once |
| PostModel.CommentsErrorsEmpty | src/lib/models/post.model.js:4-19 | comment validation passes exactly when every comment has its author, email and content |
| PostModel.ValidationErrorsEmpty | src/lib/models/post.model.js:32-64 | validation passes exactly when title, content and author are set and the category is in the enum |
| PostModel.HooksKeepValid | src/lib/models/post.model.js:97-118 | the hooks never change whether a post is valid |
| PostModel.PostDocument.constructor | src/lib/models/post.model.js:30-84 | a new document holds the cast data |
| PostModel.PostDocument.PreValidate | src/lib/models/post.model.js:113-118 | the document afterwards is `ValidateHook` of the one before |
| PostModel.PostDocument.PreSave | src/lib/models/post.model.js:97-110 | the document afterwards is `SaveHook` of the one before |
| PostModel.PostStore.constructor | src/lib/models/post.model.js:37-41 | an empty store is valid |
| PostModel.PostStore.Create | src/lib/models/post.model.js:97-118 | rejected exactly when the cast post is invalid; a duplicate exactly when its final slug is taken; otherwise appended; every stored post is valid and no two share a slug |
| PostModel.PostStore.Insert | src/lib/models/post.model.js:37-41 | the unique index: inserted exactly when the slug is free, and the store is unchanged otherwise |
| Schema.RequiredString | src/lib/models/post.model.js:32-36 | a `required` path fails exactly on the empty value |
| Schema.RequiredEnum | src/lib/models/post.model.js:55-59 | a required enum path passes exactly when set and listed, and reports at most one failure |
| Schema.OptionalEnum | src/lib/models/watchlist.model.js:39-43 | an optional enum path passes when unset or listed |
| PostsRoute.ParseTags | src/app/api/posts/route.js:39-43 | an absent field gives no tags; otherwise one tag per comma plus one, each trimmed and comma-free |
| PostsRoute.ParseTagsRoundTrip | src/app/api/posts/route.js:39-43 | trimmed, comma-free tags joined by commas read back as themselves |
| PostsRoute.ParseTagsOfEmptyField | src/app/api/posts/route.js:39-43 | an empty field gives one empty tag |
| PostsRoute.CreatedPostFields | src/app/api/posts/route.js:86-105 | the stored post has the route's slug, the trimmed excerpt, the parsed tags, is published and dated now, and carries the image exactly when one was uploaded |
| PostsRoute.CreatedSlug | src/app/api/posts/route.js:67-93 | the stored slug is `generateSlug` of the raw title |
| PostsRoute.CreatedExcerpt | src/app/api/posts/route.js:86-95 | the stored excerpt is the trimmed excerpt of the content |
| PostsRoute.CreatedTags | src/app/api/posts/route.js:39-43 | the stored tags are the parsed tags |
| PostsRoute.CreatedPublished | src/app/api/posts/route.js:99 | a post sent with `published: true` is stored published |
| PostsRoute.CategoryOutsideEnumRejected | src/app/api/posts/route.js:53-105 | a category outside the enum passes the route's check but fails validation |
| PostsRoute.BlankTitleRejected | src/app/api/posts/route.js:53-105 | a whitespace-only title passes `!title` but fails `required` once trimmed |
| PostsRoute.ErrorResponse | src/app/api/posts/route.js:115-132 | 400 exactly for a duplicate key on `slug`; everything else is 500 with the error's message |
| PostsRoute.ResponseOf | src/app/api/posts/route.js:105-132 | saved gives 201 with the post; a rejected post gives 500; a taken slug gives 400 with the title message |
| PostsRoute.CreatePost | src/app/api/posts/route.js:18-133 | 401 before anything else; then 400 for a missing field; then 500 for a failed upload with nothing stored; otherwise the store outcome. The store changes only on success, and every created post is published |
| PostsRoute.ListParamDefaults | src/app/api/posts/route.js:142-143 | page and limit default to 1 and 10, are never 0, and a decimal value is read as written |
| PostsRoute.ListPostsFails | src/app/api/posts/route.js:150-154 | the listing fails (500) exactly when the skip is negative |
| PostsRoute.MatchingFacts | src/app/api/posts/route.js:144-152 | the matches are exactly the stored posts passing the query, newest first |
| PostsRoute.ListPostsPage | src/app/api/posts/route.js:151-166 | with a non-negative skip the listing succeeds; a page is a run of the matches starting at `(page-1)*limit`, without comments; `total` counts all matches; `pages` is `ceil(total/limit)` |
| PostsRoute.ListPostsPageSize | src/app/api/posts/route.js:150-154 | with a positive limit a page holds `limit` matches, or what is left after the skip |
| PostsRoute.ListPostsMatch | src/app/api/posts/route.js:145-152 | every listed post is published unless the parameter is `"false"`, has the requested category, and comes newest first |
| PostQueries.SearchDefaults | src/app/api/posts/search/route.js:11-15 | defaults are term `""`, category `"all"`, descending, limit 9, start 0; a decimal limit or start is read as written |
| PostQueries.SearchMatchingFacts | src/app/api/posts/search/route.js:18-36 | the matches are exactly the published posts passing the category and term tests, ascending by date exactly when `sort` is `"asc"` |
| PostQueries.SearchResultShape | src/app/api/posts/search/route.js:35-50 | the result is a run of the matches starting at `startIndex`; `total` counts every match; it fails exactly when `startIndex` is negative |
| PostQueries.SearchResultSize | src/app/api/posts/search/route.js:35-38 | with a positive limit a result holds `limit` matches, or what is left after `startIndex` |
| PostQueries.SearchHasMoreOnFullLastPage | src/app/api/posts/search/route.js:49 | `hasMore` is true when the last matches exactly fill the page |
| PostQueries.SearchHasMoreNeverWithNegativeLimit | src/app/api/posts/search/route.js:38-49 | a negative limit never sets `hasMore` |
| PostQueries.LatestFacts | src/app/api/posts/latest/route.js:11-31 | `count` is the number returned, at most the limit (8 by default); every post is published and of the category; they are the newest matches, newest first |
| Numbers.IntParam | src/app/api/posts/route.js:142-143 | `parseInt(p) \|\| d`: a missing parameter gives the fallback, and a non-zero fallback gives a non-zero result |
| Numbers.IntParamDecimal | src/app/api/newsletter/subscribers/route.js:10-11 | a decimal parameter reads as itself, and zero reads as the fallback |
| Numbers.CeilDiv | src/app/api/posts/route.js:165 | `Math.ceil(a / b)`: the least `r` with `a <= r * b` for positive `b` |
| Watchlist.SchemaImpliesLoose | src/lib/models/watchlist.model.js:14 | every address the schema accepts passes the subscribe route's check |
| Watchlist.SchemaStrictlyStronger | src/lib/models/watchlist.model.js:14 | `"a@b.c"` passes the route's check but not the schema |
| Watchlist.SchemaShape | src/lib/models/watchlist.model.js:14 | a schema-valid address has no whitespace, exactly one `@`, and ends in `.` plus 2 or 3 word characters |
| Watchlist.SchemaEmailLower | src/lib/models/watchlist.model.js:11-14 | lower-casing keeps an address schema-valid |
| Watchlist.LooseNormalisation | src/app/api/newsletter/subscribe/route.js:14-21 | for an address passing the route's check, normalising is only lower-casing |
| Watchlist.NormaliseEmail | src/lib/models/watchlist.model.js:10-11 | the stored email is trimmed and lower-case |
| Watchlist.MergePreferences | src/app/api/newsletter/subscribe/route.js:37-40 | the request's keys win; missing keys keep the old values |
| Watchlist.MergeLaws | src/app/api/newsletter/subscribe/route.js:37-44 | merging an empty object keeps everything, and merging the same object twice is merging it once |
| Watchlist.NewSubscriber | src/lib/models/watchlist.model.js:19-44 | a new record is normalised, active, subscribed now, from `"newsletter"`, weekly and with no categories unless given |
| Watchlist.CategoryErrors | src/lib/models/watchlist.model.js:32-38 | the categories pass exactly when each is in the enum |
| Watchlist.SubscriberErrorsEmpty | src/lib/models/watchlist.model.js:6-44 | validation passes exactly for valid records |
| Watchlist.NewSubscriberValid | src/lib/models/watchlist.model.js:6-44 | a record whose normalised email is schema-valid and whose preferences are in their enums is valid |
| Newsletter.SubscribeFailure | src/app/api/newsletter/subscribe/route.js:70-93 | 409 exactly for a duplicate key; 400 exactly for a validation error, with its messages joined by `", "`; otherwise 500 |
| Newsletter.Reactivated | src/app/api/newsletter/subscribe/route.js:36-45 | active again, preferences and metadata merged, email, `subscribedAt` and source kept |
| Newsletter.NormaliseTwice | src/app/api/newsletter/subscribe/route.js:21 | normalising is idempotent |
| Newsletter.SubscribeRejectsMalformed | src/app/api/newsletter/subscribe/route.js:14-19 | a missing or malformed email is answered 400 with the store unchanged |
| Newsletter.SubscribeInvariant | src/app/api/newsletter/subscribe/route.js:11-93 | the store stays valid, no record is removed, only the normalised email's record may change, and the status is 400, 409, 200 or 201 |
| Newsletter.LookupInvariant | src/app/api/newsletter/subscribe/route.js:24-69 | after the lookup only the record of that email may be added or changed |
| Newsletter.LookupOutcomes | src/app/api/newsletter/subscribe/route.js:28-69 | 201 exactly for an unknown email whose record validates; 409 exactly for an active record; 200 keeps `subscribedAt`; a success leaves an active record and returns it; 409 and 400 change nothing |
| Newsletter.SubscribeTwice | src/app/api/newsletter/subscribe/route.js:28-33 | repeating a successful subscribe is answered 409 and changes nothing |
| Newsletter.Deactivated | src/app/api/newsletter/unsubscribe/route.js:35-36 | `isActive` becomes false and only `updatedAt` changes besides |
| Newsletter.UnsubscribeInvariant | src/app/api/newsletter/unsubscribe/route.js:11-41 | the set of emails never changes; success only deactivates an active record; every failure leaves the store unchanged |
| Newsletter.UnsubscribeOutcomes | src/app/api/newsletter/unsubscribe/route.js:18-41 | 404 exactly for an unknown email, 409 exactly for an inactive one, 200 exactly for an active one |
| Newsletter.ResubscribeKeepsDate | src/app/api/newsletter/subscribe/route.js:34-69 | subscribe, unsubscribe, subscribe gives 201, 200, 200, and the record is active again with its first `subscribedAt` |
| Newsletter.SubscriberStore.constructor | src/lib/models/watchlist.model.js:6-11 | an empty store is valid |
| Newsletter.SubscriberStore.Subscribe | src/app/api/newsletter/subscribe/route.js:6-95 | the reply and the new store are those of the subscribe specification; the store stays valid |
| Newsletter.SubscriberStore.Unsubscribe | src/app/api/newsletter/unsubscribe/route.js:5-50 | the reply and the new store are those of the unsubscribe specification; the store stays valid |
| Newsletter.ViewKeepsReferrer | src/app/api/newsletter/subscribers/route.js:20 | the listing keeps the email and the referrer and drops the address and user agent |
| Newsletter.QueryOf | src/app/api/newsletter/subscribers/route.js:10-12 | page and limit default to 1 and 20 and are never 0; `activeOnly` unless the parameter is exactly `"false"` |
| Newsletter.SubscribersLimit | src/app/api/newsletter/subscribers/route.js:11 | a decimal limit reads as written, with 0 giving 20 |
| Newsletter.RecordsFacts | src/app/api/newsletter/subscribers/route.js:14-17 | the records paged over are exactly the selected stored records, newest subscription first |
| Newsletter.ListSubscribersPage | src/app/api/newsletter/subscribers/route.js:16-42 | a page is a run of the selected records starting at `(page-1)*limit`; `total` counts all selected records; `pages` is `ceil(total/limit)`; it fails exactly when the skip is negative |
| Newsletter.ListSubscribersPageSize | src/app/api/newsletter/subscribers/route.js:16-19 | with a positive limit a page holds `limit` records, or what is left after the skip |
| Newsletter.ListSubscribersMatch | src/app/api/newsletter/subscribers/route.js:14-17 | only active records when `activeOnly`, newest subscription first |
| ClientSearch.FiltersFrom | src/app/search/SearchContent.jsx:19-23 | each filter is `param \|\| default`: no parameters give the defaults, a non-empty sort is taken, and sort and category are never empty |
| ClientSearch.ActiveFiltersExactlyNonDefault | src/app/search/SearchContent.jsx:153-154 | no active filter exactly when the filters are `("", "desc", "all")` |
| ClientSearch.SelectedIsFilter | src/app/search/SearchContent.jsx:63-81 | the term filter followed by the category filter is one filter by both tests |
| ClientSearch.ResultsMembers | src/app/search/SearchContent.jsx:63-88 | the results are exactly the fetched posts both tests accept, unaltered, and a sub-multiset of them |
| ClientSearch.ResultsOrdered | src/app/search/SearchContent.jsx:84-88 | ascending by date exactly when `sort` is `"asc"`, otherwise descending |
| ClientSearch.ResultsStable | src/app/search/SearchContent.jsx:84-88 | posts of equal date keep their fetched order |
| ClientSearch.DefaultFiltersKeepAll | src/app/search/SearchContent.jsx:63-88 | with default filters every fetched post is a result |
| ClientSearch.AuthorOnlyWidens | src/app/search/page.jsx:76-85 | matching the author, as src/app/search/SearchContent.jsx:74 does, only adds results; without a term the two screens agree |
| ClientSearch.Shown | src/app/search/SearchContent.jsx:90 | the window is the first `min(count, n)` results |
| ClientSearch.ShowMoreExtends | src/app/search/SearchContent.jsx:112-141 | the old window is a prefix of the new one, nine longer or all; "show more" stays exactly while results remain hidden |
| ClientSearch.SubmitParams | src/app/search/SearchContent.jsx:98-106 | at most three parameters |
| ClientSearch.Get | src/app/search/page.jsx:61-70 | `get(name)` is absent exactly when no parameter has that name |
| ClientSearch.SubmitParamsOnlyNonDefault | src/app/search/SearchContent.jsx:98-106 | a parameter is set exactly when its filter differs from the default |
| ClientSearch.CategoryParamLast | src/app/search/SearchContent.jsx:104-106 | the `category` parameter carries the category exactly when it is not `"all"` |
| ClientSearch.SubmitRoundTrip | src/app/search/page.jsx:103-119 | reading the submitted parameters back (src/app/search/page.jsx:61-70) gives the submitted filters when sort and category are non-empty |
| ClientSearch.SubmitLocation | src/app/search/SearchContent.jsx:108-109 | the target is `/search?` followed by the parameters |
| SearchContent.SearchContentState.constructor | src/app/search/SearchContent.jsx:19-23 | the filters come from the page parameters; nothing is shown yet |
| SearchContent.SearchContentState.ApplyFilters | src/app/search/SearchContent.jsx:61-92 | shows the first nine results; "show more" exactly when there are more than nine |
| SearchContent.SearchContentState.PostsFetched | src/app/search/SearchContent.jsx:41-58 | an OK reply replaces the posts and re-runs the filters: the first nine matches are shown, "show more" exactly when more than nine match, and the state is consistent; otherwise nothing changes |
| SearchContent.SearchContentState.SetFilters | src/app/search/SearchContent.jsx:183-219 | a form edit re-runs the filters at once: the first nine matches of the new form, and "show more" exactly when more than nine match |
| SearchContent.SearchContentState.ShowMore | src/app/search/SearchContent.jsx:112-142 | nine more of the same results, the old window kept in front |
| SearchContent.SearchContentState.ClearFilters | src/app/search/SearchContent.jsx:144-151 | default filters, no active filter, the effect re-run on them (first nine of all posts, "show more" exactly when more than nine, consistent state), and navigation to `/search` |
| SearchPage.SearchPageState.constructor | src/app/search/page.jsx:60-70 | the form takes the URL's filters |
| SearchPage.SearchPageState.ApplyUrl | src/app/search/page.jsx:60-101 | the form takes the URL's filters; the first nine results for the URL are shown |
| SearchPage.SearchPageState.PostsFetched | src/app/search/page.jsx:40-57 | an OK reply replaces the posts and re-applies the URL: the form is reset to the URL's filters, the first nine matches are shown, "show more" exactly when more than nine match, and the state is consistent; otherwise nothing changes |
| SearchPage.SearchPageState.Navigate | src/app/search/page.jsx:60-101 | new parameters set the filters and the first window of nine from them; the parameters already shown change nothing, so a widened window stays |
| SearchPage.SearchPageState.SetFilters | src/app/search/page.jsx:195-230 | a form edit changes only the form |
| SearchPage.SearchPageState.Submit | src/app/search/page.jsx:103-119 | navigates to the non-default parameters; when they differ from the URL's, the results follow the submitted form; when they are the URL's, the window and the form stay as they were |
| SearchPage.SearchPageState.ShowMore | src/app/search/page.jsx:121-154 | re-reads the URL and shows nine more, the old window kept in front |
| SearchPage.SearchPageState.ClearFilters | src/app/search/page.jsx:156-163 | default form and the bare search page; coming from other parameters, the first nine results of the default filters are shown; already on the bare page, the window stays as it was |
| DashComments.StatusFilter | src/app/components/DashComments.jsx:144-147 | `"approved"` keeps only approved comments, `"pending"` only the others, any other value but `"all"` nothing |
| DashComments.FilteredExactly | src/app/components/DashComments.jsx:138-150 | exactly the comments passing both the search and the status test are shown |
| DashComments.EmptyTermMatches | src/app/components/DashComments.jsx:139-142 | an empty term matches exactly the comments with some text field present |
| DashComments.CountsAddUp | src/app/components/DashComments.jsx:152-153 | pending plus approved is the number of comments |
| DashComments.ApproveLocal | src/app/components/DashComments.jsx:87-93 | the list keeps its length |
| DashComments.ApproveLocalFacts | src/app/components/DashComments.jsx:87-93 | only the flag of the comments with that id changes, becoming true; approving again changes nothing |
| DashComments.ApproveLocalPending | src/app/components/DashComments.jsx:87-93 | the pending list afterwards is the old one without that id |
| DashComments.DeleteLocalFacts | src/app/components/DashComments.jsx:122-124 | exactly the comments with that id are dropped; the rest stay, in order |
| DashComments.DashCommentsState.constructor | src/app/components/DashComments.jsx:27-32 | no comments, empty term, status `"all"`, no error |
| DashComments.DashCommentsState.CommentsFetched | src/app/components/DashComments.jsx:36-63 | a reply replaces the comments (absent reads as none); a rejection or failure sets its message and keeps them |
| DashComments.DashCommentsState.Approve | src/app/components/DashComments.jsx:72-104 | the local update happens exactly when the server said OK |
| DashComments.DashCommentsState.Delete | src/app/components/DashComments.jsx:107-135 | the local delete happens exactly when confirmed and OK |
| DashEmails.FilteredExactly | src/app/components/DashEmails.jsx:44-54 | exactly the subscribers passing both tests are shown; "Showing" never exceeds "Total" |
| DashEmails.ExportRoundTrip | src/app/components/DashEmails.jsx:56-57 | splitting the export at line breaks gives back the shown emails |
| DashEmails.ToggleFacts | src/app/components/DashEmails.jsx:69-73 | the email's membership flips and every other email's stays; toggling an absent email twice restores the list |
| DashEmails.SelectAllComparesLengths | src/app/components/DashEmails.jsx:76 | a different selection of the same length is cleared rather than replaced |
| DashEmails.SelectAllFlipsHeader | src/app/components/DashEmails.jsx:75-81 | with something shown, "select all" flips the header checkbox (src/app/components/DashEmails.jsx:221-224) |
| DashEmails.PanelQuery | src/app/components/DashEmails.jsx:29-31 | the panel's request reads as page 1 of 20, inactive records included |
| DashEmails.PanelSeesFirstPage | src/app/components/DashEmails.jsx:29-36 | the panel receives `min(20, n)` records of the `n` stored |
| DashEmails.DashEmailsState.constructor | src/app/components/DashEmails.jsx:16-20 | no subscribers, empty term, status `"all"`, nothing selected |
| DashEmails.DashEmailsState.SubscribersFetched | src/app/components/DashEmails.jsx:26-42 | a successful reply replaces the list; a failed reply or request keeps it |
| DashEmails.DashEmailsState.ToggleEmailSelection | src/app/components/DashEmails.jsx:69-73 | the selection becomes the toggled one; the email's membership flips |
| DashEmails.DashEmailsState.SelectAllEmails | src/app/components/DashEmails.jsx:75-81 | the selection becomes the select-all result, flipping the header checkbox |
| BlogContent.FindLabel | src/app/blog/BlogContent.jsx:159-160 | absent exactly when no entry has the value; otherwise the label of an entry with it |
| BlogContent.CategoryLabel | src/app/blog/BlogContent.jsx:10-17 | the raw category when the table lacks it, otherwise that entry's label |
| BlogContent.StoredCategoriesLabelled | src/app/blog/BlogContent.jsx:10-17 | every category a post can be stored with (the enum at src/lib/models/post.model.js:58) has a button and a label of its own |
| BlogContent.SelectedCategory | src/app/blog/BlogContent.jsx:27-28 | `urlCategory \|\| "all"`: never empty, `"all"` when absent |
| BlogContent.FetchUrlCarriesParams | src/app/blog/BlogContent.jsx:35-38 | the request path carries `category` exactly when the request's parameters hold one, with the same value, and no other parameter |
| BlogContent.FetchQuery | src/app/blog/BlogContent.jsx:35-38 | the route reads the request as page 1 of 10 published posts, of the category unless `"all"` |
| BlogContent.BodyOf | src/app/api/posts/route.js:159-173 | the listing's body never has `success`; it has `posts` exactly on success |
| BlogContent.PostsFromBodyAsWritten | src/app/blog/BlogContent.jsx:43-48 | no posts unless `success` is true |
| BlogContent.AsWrittenShowsNothing | src/app/blog/BlogContent.jsx:43-48 | as written, the screen shows nothing for any store and any category |
| BlogContent.AsWrittenDropsListedPost | src/app/blog/BlogContent.jsx:43-48 | a store of one published post: the route lists it, the screen drops it |
| BlogContent.PostsFromBody | src/app/blog/BlogContent.jsx:44 | no `posts` reads as none |
| BlogContent.PostsFromBodyShowsPage | src/app/blog/BlogContent.jsx:43-48 | corrected, the screen gets exactly the listed page, and nothing on a failure |
| BlogContent.FetchedPage | src/app/blog/BlogContent.jsx:35-44 | the fetched page holds at most ten published posts of the category, newest first |
| BlogContent.HasMoreIff | src/app/blog/BlogContent.jsx:61-62 | "see more" exactly when `visibleCount` is below the number of posts |
| BlogContent.NeverMoreToSee | src/app/blog/BlogContent.jsx:35-62 | with the route's default limit and a window of at least ten, "see more" never appears |
| BlogContent.BlogContentState.constructor | src/app/blog/BlogContent.jsx:22-28 | no posts, a window of ten, the category from the URL |
| BlogContent.BlogContentState.Navigate | src/app/blog/BlogContent.jsx:27-58 | the category follows the URL; a request to the category's URL goes out only when the category changed (the effect's only dependency), none otherwise; the window is kept |
| BlogContent.BlogContentState.PostsFetched | src/app/blog/BlogContent.jsx:31-58 | the posts become the listed page, or none on a failure |
| BlogContent.BlogContentState.LoadMore | src/app/blog/BlogContent.jsx:65-67 | ten more, the old window kept in front; the window stays a positive multiple of ten |
| BlogContent.Words | src/app/blog/BlogContent.jsx:73 | the pieces between whitespace runs: at least one, none holding whitespace |
| BlogContent.WordsOfJoin | src/app/blog/BlogContent.jsx:73 | words joined by single spaces split back into the same words |
| BlogContent.ReadingTime | src/app/blog/BlogContent.jsx:70-75 | 3 for empty text; otherwise the least `m >= 1` with pieces at most `150 * m` |
| BlogContent.ReadingTimeOfWords | src/app/blog/BlogContent.jsx:70-75 | for words separated by single spaces, `max(1, ceil(words / 150))` |

## Left out

- Database connection, the clock and other I/O are not modelled. A failed connect or an
  unexpected driver error can reach each route's 500 branch, and that path is not modelled.
  Times are integers passed in as parameters.
- Only ASCII text is modelled. Case mapping, `trim` and `\s` are restricted to ASCII, so
  Unicode whitespace and Unicode case folding are left out.
- Search terms are matched as literal substrings (ignoring case). The routes and screens
  compile them as regular expressions, so metacharacters and the 500 from an invalid pattern
  are not modelled.
- `parseInt` is modelled for decimal and `0x` input. Very large values and the float rounding
  of `Math.ceil` are not modelled.
- `URLSearchParams` encoding and decoding are not modelled. A query is a sequence of
  name/value pairs.
- Sort ties: MongoDB leaves the order of equal keys unspecified, and the model fixes it to
  stored order.
- The clock, authentication (Clerk), the image upload service, the comment server routes and
  the post update and delete routes are not part of this model. Their outcomes are parameters
  (`upload`, `ok`, `confirmed`, the fetched replies). An `isAdmin` value other than a boolean
  is not distinguished from `false`.
- Loading flags, alerts, confirmation dialogs, the export's file download and all markup are
  left out.
- Newsletter.SubscribeFailure: the duplicate-key (11000) branch is modelled, but the
  subscribe specification never produces it. The lookup comes before the insert, so that
  branch is only reachable by two concurrent requests, and concurrency is left out. A
  reactivation whose record fails validation is answered 400 by the same function.
- Newsletter.SubscriberStore.Unsubscribe: the route's 500 answer ("Failed to unsubscribe from
  newsletter") is not produced. A valid record stays valid when deactivated, so only an I/O
  failure could lead there.
- Watchlist.NewSubscriber: Mongoose's handling of nested objects (spreading a subdocument,
  keys outside the schema) is reduced to the schema's own keys.
- PostsRoute.CreatePost: the form's `featuredImage` is reduced to its size. The upload is a
  parameter that has already succeeded or failed.
- BlogContent.BlogContentState.PostsFetched: the reply is read the corrected way. The reading
  as written is `BlogContent.PostsFromBodyAsWritten`, under Findings.
- BlogContent.ReadingTime: `post.excerpt` is always a string in the model, so the "missing
  text" case is the empty string.
- DashComments.DashCommentsState.Approve and DashComments.DashCommentsState.Delete: the
  server's answer is a boolean parameter. The error alerts are not modelled.

## Findings

| source | as written | input that shows it | evidently intended | confidence | as-written member | corrected member |
|---|---|---|---|---|---|---|
| src/app/blog/BlogContent.jsx:43-48 | the screen keeps the reply's posts only when `data.success` is true, but `GET /api/posts` answers `{posts, pagination}` with no `success` field (src/app/api/posts/route.js:159-167) | a store with one published post: the route lists it, and the screen shows "No posts found" | show the listed posts whenever the reply has them | high; not executed | BlogContent.PostsFromBodyAsWritten (with BlogContent.AsWrittenShowsNothing and BlogContent.AsWrittenDropsListedPost) | BlogContent.PostsFromBody (with BlogContent.PostsFromBodyShowsPage; used by BlogContent.BlogContentState.PostsFetched) |
