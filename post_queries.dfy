/** The two read-only post queries: `/api/posts/search` (src/app/api/posts/search/route.js)
    and `/api/posts/latest` (src/app/api/posts/latest/route.js). */
module PostQueries {
  import opened Text
  import opened Numbers
  import opened Sorting
  import opened PostModel
  import PostsRoute

  // ---------------------------------------------------------------- search

  datatype SearchParams = SearchParams(
    searchTerm: Option<string>,
    category: Option<string>,
    sort: Option<string>,
    limit: Option<string>,
    startIndex: Option<string>)

  /** `param || fallback`: a missing or empty parameter takes the fallback. */
  function StringParam(param: Option<string>, fallback: string): (r: string)
  {
    if param.Some? && param.value != "" then param.value else fallback
  }

  /** The search after its defaults: term "", category "all", sort "desc", limit 9, start 0. */
  datatype Search = Search(term: string, category: string, sort: string, limit: int, startIndex: int)

  function SearchOf(params: SearchParams): Search {
    Search(StringParam(params.searchTerm, ""), StringParam(params.category, "all"),
           StringParam(params.sort, "desc"), IntParam(params.limit, 9), IntParam(params.startIndex, 0))
  }

  /** The term found, ignoring case, in the title, the content, the excerpt or some tag. The term
      is read as literal text. */
  predicate TermMatches(term: string, p: Post) {
    ContainsInsensitive(p.title, term) || ContainsInsensitive(p.content, term)
    || ContainsInsensitive(p.excerpt, term)
    || exists k | 0 <= k < |p.tags| :: ContainsInsensitive(p.tags[k], term)
  }

  /** The query: published posts, of the category unless it is "all", matching the term if
      there is one. */
  predicate SearchMatches(s: Search, p: Post) {
    p.published
    && (s.category != "all" ==> p.category == s.category)
    && (s.term != "" ==> TermMatches(s.term, p))
  }

  /** `{ publishedAt: 1 }` or `{ publishedAt: -1 }`: a single key. */
  function PublishedKey(p: Post): Key {
    Key(p.publishedAt, 0)
  }

  predicate Descending(s: Search) {
    s.sort != "asc"
  }

  /** The listed fields: `title slug excerpt featuredImage category author publishedAt tags`. */
  datatype PostSummary = PostSummary(
    title: string,
    slug: string,
    excerpt: string,
    featuredImage: Option<Image>,
    category: string,
    author: string,
    publishedAt: int,
    tags: seq<string>)

  function Summary(p: Post): PostSummary {
    PostSummary(p.title, p.slug, p.excerpt, p.featuredImage, p.category, p.author, p.publishedAt, p.tags)
  }

  function Summaries(ps: seq<Post>): (ss: seq<PostSummary>)
  {
    seq(|ps|, k requires 0 <= k < |ps| => Summary(ps[k]))
  }

  datatype SearchResponse =
    | SearchResult(posts: seq<PostSummary>, total: nat, hasMore: bool)
    | SearchFailed(status: int)

  function SearchMatching(posts: seq<Post>, s: Search): seq<Post> {
    SortBy(Filter(posts, p => SearchMatches(s, p)), PublishedKey, Descending(s))
  }

  /** `GET /api/posts/search`. A negative `startIndex` makes the store fail (500). */
  function SearchPosts(posts: seq<Post>, params: SearchParams): SearchResponse {
    ResultOf(SearchMatching(posts, SearchOf(params)), SearchOf(params))
  }

  /** `.skip(startIndex).limit(limit)` over the matches, and the reply built from it. */
  function ResultOf(matching: seq<Post>, s: Search): SearchResponse {
    match Window(matching, s.startIndex, s.limit)
    case None => SearchFailed(500)
    case Some(window) => SearchResult(Summaries(window), |matching|, |window| == s.limit)
  }

  lemma ResultOfShape(m: seq<Post>, s: Search)
    ensures var r := ResultOf(m, s);
            var skip := Min(s.startIndex, |m|);
            && (r.SearchFailed? <==> s.startIndex < 0)
            && (r.SearchResult? ==>
                  && r.total == |m|
                  && skip + |r.posts| <= |m|
                  && r.posts == Summaries(m[skip..skip + |r.posts|])
                  && (s.limit > 0 ==> |r.posts| == Min(s.limit, |m| - skip)))
  {
  }

  /** Missing parameters take their defaults; a decimal limit or start is read as written. */
  lemma SearchDefaults(params: SearchParams, n: nat)
    ensures params.searchTerm.None? ==> SearchOf(params).term == ""
    ensures params.category.None? ==> SearchOf(params).category == "all"
    ensures params.sort.None? ==> Descending(SearchOf(params))
    ensures params.limit.None? ==> SearchOf(params).limit == 9
    ensures params.startIndex.None? ==> SearchOf(params).startIndex == 0
    ensures SearchOf(params).limit != 0
    ensures params.limit == Some(DecimalString(n)) ==> SearchOf(params).limit == if n == 0 then 9 else n
    ensures params.startIndex == Some(DecimalString(n)) ==> SearchOf(params).startIndex == n
  {
    IntParamDecimal(n, 9);
    IntParamDecimal(n, 0);
  }

  /** The matches are exactly the stored posts that pass the query, ordered by `publishedAt`,
      ascending exactly when `sort` is "asc". */
  lemma SearchMatchingFacts(posts: seq<Post>, s: Search)
    ensures var m := SearchMatching(posts, s);
            && (forall k :: 0 <= k < |m| ==> SearchMatches(s, m[k]) && m[k] in posts)
            && (forall k :: 0 <= k < |posts| && SearchMatches(s, posts[k]) ==> posts[k] in m)
            && (forall i, j :: 0 <= i < j < |m| ==>
                  if s.sort == "asc" then m[i].publishedAt <= m[j].publishedAt
                  else m[i].publishedAt >= m[j].publishedAt)
  {
    SortFilterMembers(posts, p => SearchMatches(s, p), PublishedKey, Descending(s));
    PublishedOrder(SearchMatching(posts, s), s);
  }

  /** A list sorted by `PublishedKey` in the direction of `sort` is ordered by `publishedAt`. */
  lemma PublishedOrder(m: seq<Post>, s: Search)
    requires Sorted(m, PublishedKey, Descending(s))
    ensures forall i, j :: 0 <= i < j < |m| ==>
              if s.sort == "asc" then m[i].publishedAt <= m[j].publishedAt
              else m[i].publishedAt >= m[j].publishedAt
  {
    forall i, j | 0 <= i < j < |m|
      ensures if s.sort == "asc" then m[i].publishedAt <= m[j].publishedAt
              else m[i].publishedAt >= m[j].publishedAt
    {
      assert InOrder(PublishedKey(m[i]), PublishedKey(m[j]), Descending(s));
    }
  }

  /** A result lists a run of the matches from `startIndex` on; `total` counts every match;
      the search fails exactly when `startIndex` is negative. */
  lemma SearchResultShape(posts: seq<Post>, params: SearchParams)
    ensures var r := SearchPosts(posts, params);
            var s := SearchOf(params);
            var m := SearchMatching(posts, s);
            var skip := Min(s.startIndex, |m|);
            && (r.SearchFailed? <==> s.startIndex < 0)
            && (r.SearchResult? ==>
                  && r.total == |m|
                  && skip + |r.posts| <= |m|
                  && r.posts == Summaries(m[skip..skip + |r.posts|]))
  {
    ResultOfShape(SearchMatching(posts, SearchOf(params)), SearchOf(params));
  }

  /** With a positive limit a result holds `limit` matches, or what is left after
      `startIndex`. */
  lemma SearchResultSize(posts: seq<Post>, params: SearchParams)
    requires SearchPosts(posts, params).SearchResult? && SearchOf(params).limit > 0
    ensures var m := SearchMatching(posts, SearchOf(params));
            |SearchPosts(posts, params).posts| == Min(SearchOf(params).limit, |m| - Min(SearchOf(params).startIndex, |m|))
  {
    ResultOfShape(SearchMatching(posts, SearchOf(params)), SearchOf(params));
  }

  /** `hasMore` says the page is full, not that more matches remain: when the last matches
      exactly fill the page it is still true. */
  lemma SearchHasMoreOnFullLastPage(posts: seq<Post>, params: SearchParams)
    requires var s := SearchOf(params);
             s.limit > 0 && s.startIndex >= 0 && |SearchMatching(posts, s)| == s.startIndex + s.limit
    ensures SearchPosts(posts, params).SearchResult?
    ensures SearchPosts(posts, params).hasMore
    ensures SearchPosts(posts, params).total == SearchOf(params).startIndex + |SearchPosts(posts, params).posts|
  {
  }

  /** A negative limit returns at most `-limit` posts, so `hasMore` is then never set. */
  lemma SearchHasMoreNeverWithNegativeLimit(posts: seq<Post>, params: SearchParams)
    requires SearchOf(params).limit < 0
    requires SearchPosts(posts, params).SearchResult?
    ensures !SearchPosts(posts, params).hasMore
  {
  }

  // ---------------------------------------------------------------- latest

  datatype LatestParams = LatestParams(limit: Option<string>, category: Option<string>)

  datatype LatestResponse = LatestPosts(posts: seq<PostsRoute.PostView>, count: nat)

  /** Category equality only when the parameter is present, non-empty and not "all". */
  function LatestCategory(params: LatestParams): Option<string> {
    if PostsRoute.Blank(params.category) || params.category.value == "all" then None
    else params.category
  }

  predicate LatestMatches(category: Option<string>, p: Post) {
    p.published && (category.Some? ==> p.category == category.value)
  }

  function LatestMatching(posts: seq<Post>, category: Option<string>): seq<Post> {
    SortBy(Filter(posts, p => LatestMatches(category, p)), PostsRoute.PostKey, true)
  }

  /** `GET /api/posts/latest`: limit defaults to 8; a negative limit returns at most `-limit`. */
  function Latest(posts: seq<Post>, params: LatestParams): LatestResponse {
    var limit := IntParam(params.limit, 8);
    var window := Window(LatestMatching(posts, LatestCategory(params)), 0, limit).value;
    LatestPosts(PostsRoute.Views(window), |window|)
  }

  /** `count` is the number of posts returned, never more than the limit (8 by default); every
      one is published and of the requested category; they are the newest matches, newest first. */
  lemma LatestFacts(posts: seq<Post>, params: LatestParams)
    ensures var r := Latest(posts, params);
            var limit := IntParam(params.limit, 8);
            var m := LatestMatching(posts, LatestCategory(params));
            && r.count == |r.posts| <= Abs(limit)
            && (params.limit.None? ==> r.count <= 8)
            && r.posts == PostsRoute.Views(m[..r.count])
            && r.count == Min(Abs(limit), |m|)
            && (forall k :: 0 <= k < |r.posts| ==> r.posts[k].published)
            && (LatestCategory(params).Some? ==>
                  forall k :: 0 <= k < |r.posts| ==> r.posts[k].category == LatestCategory(params).value)
            && (forall i, j :: 0 <= i < j < |r.posts| ==>
                  KeyLe(PostsRoute.ViewKey(r.posts[j]), PostsRoute.ViewKey(r.posts[i])))
  {
    var category := LatestCategory(params);
    var m := LatestMatching(posts, category);
    var r := Latest(posts, params);
    SortFilterMembers(posts, p => LatestMatches(category, p), PostsRoute.PostKey, true);
    forall k | 0 <= k < |r.posts|
      ensures r.posts[k].published
      ensures category.Some? ==> r.posts[k].category == category.value
    {
      assert r.posts[k] == PostsRoute.View(m[k]);
      assert LatestMatches(category, m[k]);
    }
    forall i, j | 0 <= i < j < |r.posts|
      ensures KeyLe(PostsRoute.ViewKey(r.posts[j]), PostsRoute.ViewKey(r.posts[i]))
    {
      assert r.posts[i] == PostsRoute.View(m[i]) && r.posts[j] == PostsRoute.View(m[j]);
      assert InOrder(PostsRoute.PostKey(m[i]), PostsRoute.PostKey(m[j]), true);
    }
  }
}
