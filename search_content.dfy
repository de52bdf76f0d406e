/** The search screen that filters in the browser (src/app/search/SearchContent.jsx). Its state
    is the filter form, the fetched posts, the visible results and the "show more" flag; every
    change to the form or to the fetched posts re-runs the filter effect. */
module SearchContent {
  import opened Text
  import opened Sorting
  import opened PostsRoute
  import opened ClientSearch

  /** What the fetch of `/api/posts?limit=100` yields: a non-OK or failed request, or the body's
      `posts` (absent posts read as none). */
  datatype Fetched = NotOk | Ok(posts: Option<seq<PostView>>)

  class SearchContentState {
    var filters: Filters
    var allPosts: seq<PostView>
    var filteredPosts: seq<PostView>
    var showMore: bool

    /** This screen matches the term against the author too. */
    function Matching(): seq<PostView>
      reads this
    {
      Results(allPosts, filters, true)
    }

    /** The visible list is a leading run of the results for the current form and posts, and
        "show more" is offered exactly while some results are hidden. */
    predicate Consistent()
      reads this
    {
      filteredPosts == Shown(Matching(), |filteredPosts|) && showMore == (|filteredPosts| < |Matching()|)
    }

    /** Mounting with the page's parameters: each filter is `param || default`. */
    constructor (searchTerm: Option<string>, sort: Option<string>, category: Option<string>)
      ensures filters == FiltersFrom(searchTerm, sort, category)
      ensures allPosts == [] && filteredPosts == [] && !showMore
      ensures Consistent()
    {
      filters := FiltersFrom(searchTerm, sort, category);
      allPosts := [];
      filteredPosts := [];
      showMore := false;
    }

    /** The effect on `[filters, allPosts]`: show the first nine results. */
    method ApplyFilters()
      modifies this`filteredPosts, this`showMore
      ensures filteredPosts == Shown(Matching(), PageSize)
      ensures showMore <==> |Matching()| > PageSize
      ensures Consistent()
    {
      var results := Results(allPosts, filters, true);
      filteredPosts := Take(results, PageSize);
      showMore := |results| > PageSize;
    }

    /** The fetch completing: on an OK reply the posts are replaced and the effect runs;
        otherwise nothing changes. */
    method PostsFetched(fetched: Fetched)
      modifies this
      ensures filters == old(filters)
      ensures fetched.NotOk? ==> allPosts == old(allPosts) && filteredPosts == old(filteredPosts) && showMore == old(showMore)
      ensures fetched.Ok? ==> allPosts == fetched.posts.GetOr([]) && filteredPosts == Shown(Matching(), PageSize)
                              && (showMore <==> |Matching()| > PageSize) && Consistent()
      ensures old(Consistent()) ==> Consistent()
    {
      if fetched.Ok? {
        allPosts := fetched.posts.GetOr([]);
        ApplyFilters();
      }
    }

    /** An edit of the form (term, sort or category): the effect re-runs at once. */
    method SetFilters(f: Filters)
      modifies this
      ensures filters == f && allPosts == old(allPosts)
      ensures filteredPosts == Shown(Matching(), PageSize)
      ensures showMore <==> |Matching()| > PageSize
      ensures Consistent()
    {
      filters := f;
      ApplyFilters();
    }

    /** `handleShowMore`: nine more of the same results; what was visible stays, in front. */
    method ShowMore()
      modifies this`filteredPosts, this`showMore
      ensures filteredPosts == Shown(Matching(), |old(filteredPosts)| + PageSize)
      ensures showMore <==> |Matching()| > |old(filteredPosts)| + PageSize
      ensures Consistent()
      ensures old(Consistent()) ==> old(filteredPosts) <= filteredPosts
    {
      var currentCount := |filteredPosts|;
      var results := Results(allPosts, filters, true);
      ShowMoreExtends(results, currentCount);
      filteredPosts := Take(results, currentCount + PageSize);
      showMore := |results| > currentCount + PageSize;
    }

    /** `clearFilters`: the default form, which re-runs the effect, and navigation to the bare
        search page. */
    method ClearFilters() returns (location: string)
      modifies this
      ensures filters == DefaultFilters && !HasActiveFilters(filters)
      ensures allPosts == old(allPosts)
      ensures filteredPosts == Shown(Matching(), PageSize)
      ensures showMore <==> |Matching()| > PageSize
      ensures Consistent()
      ensures location == "/search"
    {
      filters := DefaultFilters;
      ApplyFilters();
      location := "/search";
    }
  }
}
