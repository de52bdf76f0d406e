/** The client-side search pipeline shared by the two search screens
    (src/app/search/SearchContent.jsx and src/app/search/page.jsx): over the posts fetched once
    from `/api/posts?limit=100`, keep those that match the term and the category, order them by
    publication date, and show them nine at a time. The screens differ in one respect: only
    SearchContent also looks for the term in the author's name. */
module ClientSearch {
  import opened Text
  import opened Sorting
  import PostQueries
  import opened PostsRoute

  /** The filter form: search term, sort order ("desc" or "asc") and category ("all" or one). */
  datatype Filters = Filters(searchTerm: string, sort: string, category: string)

  const DefaultFilters := Filters("", "desc", "all")

  /** The number of results shown at first and added by each "show more". */
  const PageSize := 9

  /** Filters from optional parameters, each `value || default`. */
  function FiltersFrom(searchTerm: Option<string>, sort: Option<string>, category: Option<string>): (f: Filters)
    ensures searchTerm.None? && sort.None? && category.None? ==> f == DefaultFilters
    ensures f.sort != "" && f.category != ""
    ensures sort.Some? && sort.value != "" ==> f.sort == sort.value
  {
    Filters(PostQueries.StringParam(searchTerm, ""), PostQueries.StringParam(sort, "desc"),
            PostQueries.StringParam(category, "all"))
  }

  /** `hasActiveFilters`: some filter differs from its default. */
  predicate HasActiveFilters(f: Filters) {
    f.searchTerm != "" || f.sort != "desc" || f.category != "all"
  }

  lemma ActiveFiltersExactlyNonDefault(f: Filters)
    ensures !HasActiveFilters(f) <==> f == DefaultFilters
  {
  }

  /** The term, ignoring case, in the title, excerpt, content or some tag, and, when
      `withAuthor`, in the author's name. */
  predicate TermHit(term: string, p: PostView, withAuthor: bool) {
    ContainsInsensitive(p.title, term) || ContainsInsensitive(p.excerpt, term)
    || ContainsInsensitive(p.content, term)
    || (exists k | 0 <= k < |p.tags| :: ContainsInsensitive(p.tags[k], term))
    || (withAuthor && ContainsInsensitive(p.author, term))
  }

  /** Both tests of the form: the term (when there is one) and the category (unless "all"). */
  predicate Selects(f: Filters, p: PostView, withAuthor: bool) {
    (f.searchTerm != "" ==> TermHit(f.searchTerm, p, withAuthor))
    && (f.category != "all" ==> p.category == f.category)
  }

  function TermFiltered(posts: seq<PostView>, term: string, withAuthor: bool): seq<PostView> {
    if term != "" then Filter(posts, p => TermHit(term, p, withAuthor)) else posts
  }

  function CategoryFiltered(posts: seq<PostView>, category: string): seq<PostView> {
    if category != "all" then Filter(posts, (p: PostView) => p.category == category) else posts
  }

  /** `new Date(publishedAt)` compared as a number. */
  function DateKey(p: PostView): Key {
    Key(p.publishedAt, 0)
  }

  /** The posts the filters select, in their fetched order. */
  function Selected(posts: seq<PostView>, f: Filters, withAuthor: bool): seq<PostView> {
    CategoryFiltered(TermFiltered(posts, f.searchTerm, withAuthor), f.category)
  }

  /** The selected posts ordered by date: oldest first when `sort` is "asc", newest first
      otherwise; the array sort is stable. */
  function Results(posts: seq<PostView>, f: Filters, withAuthor: bool): seq<PostView> {
    SortBy(Selected(posts, f, withAuthor), DateKey, f.sort != "asc")
  }

  /** The two filters in a row are one filter by `Selects`. */
  lemma SelectedIsFilter(posts: seq<PostView>, f: Filters, withAuthor: bool)
    ensures Selected(posts, f, withAuthor) == Filter(posts, p => Selects(f, p, withAuthor))
  {
    var term := (p: PostView) => f.searchTerm != "" ==> TermHit(f.searchTerm, p, withAuthor);
    var cat := (p: PostView) => f.category != "all" ==> p.category == f.category;
    var sel := (p: PostView) => Selects(f, p, withAuthor);
    var t := TermFiltered(posts, f.searchTerm, withAuthor);
    if f.searchTerm == "" {
      FilterAll(posts, term);
    } else {
      FilterSameTest(posts, p => TermHit(f.searchTerm, p, withAuthor), term);
    }
    assert t == Filter(posts, term);
    if f.category == "all" {
      FilterAll(t, cat);
    } else {
      FilterSameTest(t, (p: PostView) => p.category == f.category, cat);
    }
    assert Selected(posts, f, withAuthor) == Filter(t, cat);
    FilterFilter(posts, term, cat, sel);
  }

  /** The results hold exactly the fetched posts the filters select, unchanged, each at most
      as often as it was fetched. */
  lemma ResultsMembers(posts: seq<PostView>, f: Filters, withAuthor: bool)
    ensures var r := Results(posts, f, withAuthor);
            && (forall i :: 0 <= i < |r| ==> Selects(f, r[i], withAuthor) && r[i] in posts)
            && (forall i :: 0 <= i < |posts| && Selects(f, posts[i], withAuthor) ==> posts[i] in r)
            && multiset(r) <= multiset(posts)
  {
    SelectedIsFilter(posts, f, withAuthor);
    SortFilterMembers(posts, p => Selects(f, p, withAuthor), DateKey, f.sort != "asc");
  }

  /** The results are ordered by date, oldest first exactly when `sort` is "asc". */
  lemma ResultsOrdered(posts: seq<PostView>, f: Filters, withAuthor: bool)
    ensures var r := Results(posts, f, withAuthor);
            forall i, j :: 0 <= i < j < |r| ==>
              if f.sort == "asc" then r[i].publishedAt <= r[j].publishedAt
              else r[i].publishedAt >= r[j].publishedAt
  {
    var r := Results(posts, f, withAuthor);
    forall i, j | 0 <= i < j < |r|
      ensures if f.sort == "asc" then r[i].publishedAt <= r[j].publishedAt
              else r[i].publishedAt >= r[j].publishedAt
    {
      assert InOrder(DateKey(r[i]), DateKey(r[j]), f.sort != "asc");
    }
  }

  /** Posts of the same date keep the order they were fetched in. */
  lemma ResultsStable(posts: seq<PostView>, f: Filters, withAuthor: bool, k: Key)
    ensures WithKey(Results(posts, f, withAuthor), DateKey, k)
         == WithKey(Filter(posts, p => Selects(f, p, withAuthor)), DateKey, k)
  {
    SelectedIsFilter(posts, f, withAuthor);
    SortByStable(Selected(posts, f, withAuthor), DateKey, f.sort != "asc", k);
  }

  /** With default filters nothing is dropped: the results are all fetched posts, newest first. */
  lemma DefaultFiltersKeepAll(posts: seq<PostView>, withAuthor: bool)
    ensures multiset(Results(posts, DefaultFilters, withAuthor)) == multiset(posts)
  {
  }

  /** The page screen never shows a post the SearchContent screen would not: matching the
      author as well only adds results; without a term the two agree. */
  lemma AuthorOnlyWidens(posts: seq<PostView>, f: Filters)
    ensures forall i :: 0 <= i < |posts| && Selects(f, posts[i], false) ==> Selects(f, posts[i], true)
    ensures f.searchTerm == "" ==> Results(posts, f, false) == Results(posts, f, true)
  {
  }

  /** The shown window and the "show more" flag after showing `count` results. */
  function Shown(results: seq<PostView>, count: nat): (r: seq<PostView>)
    ensures |r| == Min(count, |results|) && r == results[..|r|]
  {
    Take(results, count)
  }

  /** A window of `count` posts followed by one of `count + 9`: the first is a prefix of the
      second, and "show more" stays only while results remain hidden. */
  lemma ShowMoreExtends(results: seq<PostView>, count: nat)
    ensures Shown(results, count) <= Shown(results, count + PageSize)
    ensures |Shown(results, count + PageSize)| == Min(count + PageSize, |results|)
    ensures (|results| > count + PageSize) <==> |Shown(results, count + PageSize)| < |results|
  {
  }

  /** The query parameters `handleSubmit` sets, in order: each only when its filter differs from
      its default. */
  function SubmitParams(f: Filters): (q: seq<(string, string)>)
    ensures |q| <= 3
  {
    (if f.searchTerm != "" then [("searchTerm", f.searchTerm)] else [])
    + (if f.sort != "desc" then [("sort", f.sort)] else [])
    + (if f.category != "all" then [("category", f.category)] else [])
  }

  /** `urlParams.get(name)`: the first value given for `name`. */
  function Get(q: seq<(string, string)>, name: string): (v: Option<string>)
    ensures v.None? <==> forall k :: 0 <= k < |q| ==> q[k].0 != name
  {
    if q == [] then None
    else if q[0].0 == name then Some(q[0].1)
    else Get(q[1..], name)
  }

  /** The filters a URL's parameters give, each `get(name) || default`. */
  function FiltersOfQuery(q: seq<(string, string)>): Filters {
    FiltersFrom(Get(q, "searchTerm"), Get(q, "sort"), Get(q, "category"))
  }

  /** Parameters before the first one named `name` do not change what `get(name)` returns. */
  lemma {:induction false} GetSkips(p: seq<(string, string)>, q: seq<(string, string)>, name: string)
    requires forall k :: 0 <= k < |p| ==> p[k].0 != name
    ensures Get(p + q, name) == Get(q, name)
  {
    if p == [] {
      assert p + q == q;
    } else {
      assert (p + q)[0] == p[0] && (p + q)[1..] == p[1..] + q;
      GetSkips(p[1..], q, name);
    }
  }

  lemma ParamNamesDiffer()
    ensures "searchTerm" != "sort" && "searchTerm" != "category" && "sort" != "category"
  {
    assert |"searchTerm"| == 10 && |"sort"| == 4 && |"category"| == 8;
  }

  /** A parameter is set exactly when its filter differs from the default. */
  lemma SubmitParamsOnlyNonDefault(f: Filters)
    ensures Get(SubmitParams(f), "searchTerm").Some? <==> f.searchTerm != ""
    ensures Get(SubmitParams(f), "sort").Some? <==> f.sort != "desc"
    ensures Get(SubmitParams(f), "category").Some? <==> f.category != "all"
    ensures SubmitParams(f) == [] <==> !HasActiveFilters(f)
  {
    ParamNamesDiffer();
    CategoryParamLast(f);
  }

  lemma CategoryParamLast(f: Filters)
    ensures Get(SubmitParams(f), "category") == if f.category != "all" then Some(f.category) else None
  {
    ParamNamesDiffer();
    var front := (if f.searchTerm != "" then [("searchTerm", f.searchTerm)] else [])
                 + (if f.sort != "desc" then [("sort", f.sort)] else []);
    var last := if f.category != "all" then [("category", f.category)] else [];
    assert SubmitParams(f) == front + last;
    GetSkips(front, last, "category");
  }

  /** Reading the submitted parameters back gives the filters that were submitted, provided
      the sort and category are not empty (an empty one reads back as its default). */
  lemma SubmitRoundTrip(f: Filters)
    requires f.sort != "" && f.category != ""
    ensures FiltersOfQuery(SubmitParams(f)) == f
  {
    var q := SubmitParams(f);
    ParamNamesDiffer();
    if f.searchTerm != "" {
      assert Get(q, "searchTerm") == Some(f.searchTerm);
    }
    if f.sort != "desc" {
      assert Get(q, "sort") == Some(f.sort);
    }
    CategoryParamLast(f);
  }

  /** `URLSearchParams.toString()`: `name=value` pairs joined by `&`. */
  function QueryString(q: seq<(string, string)>): string {
    Join(seq(|q|, k requires 0 <= k < |q| => q[k].0 + "=" + q[k].1), "&")
  }

  /** Where `handleSubmit` navigates. */
  function SubmitLocation(f: Filters): (url: string)
    ensures |url| >= 8 && url[..8] == "/search?"
  {
    "/search?" + QueryString(SubmitParams(f))
  }
}
