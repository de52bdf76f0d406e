/** The search screen driven by the URL (src/app/search/page.jsx). The filter effect reads the
    URL's parameters, not the form: editing the form changes nothing until it is submitted,
    which navigates to a URL carrying the form's non-default values. Its term test leaves the
    author out. */
module SearchPage {
  import opened Text
  import opened Sorting
  import opened PostsRoute
  import opened ClientSearch
  import SearchContent

  class SearchPageState {
    var filters: Filters
    var allPosts: seq<PostView>
    var filteredPosts: seq<PostView>
    var showMore: bool
    var searchParams: seq<(string, string)>

    /** The results for the URL's filters; this screen does not match the author. */
    function Matching(): seq<PostView>
      reads this`allPosts, this`searchParams
    {
      Results(allPosts, FiltersOfQuery(searchParams), false)
    }

    /** The visible list is a leading run of the results for the URL and the fetched posts, and
        "show more" is offered exactly while some results are hidden. */
    predicate Consistent()
      reads this
    {
      filteredPosts == Shown(Matching(), |filteredPosts|) && showMore == (|filteredPosts| < |Matching()|)
    }

    /** Mounting at a URL: the effect runs once with no posts yet, copying the URL's filters
        into the form. */
    constructor (params: seq<(string, string)>)
      ensures searchParams == params && filters == FiltersOfQuery(params)
      ensures allPosts == [] && filteredPosts == [] && !showMore
      ensures Consistent()
    {
      searchParams := params;
      filters := FiltersOfQuery(params);
      allPosts := [];
      filteredPosts := [];
      showMore := false;
    }

    /** The effect on `[searchParams, allPosts]`: the form takes the URL's filters and the first
        nine results are shown. */
    method ApplyUrl()
      modifies this`filters, this`filteredPosts, this`showMore
      ensures filters == FiltersOfQuery(searchParams)
      ensures filteredPosts == Shown(Matching(), PageSize)
      ensures showMore <==> |Matching()| > PageSize
      ensures Consistent()
    {
      filters := FiltersOfQuery(searchParams);
      var results := Results(allPosts, filters, false);
      filteredPosts := Take(results, PageSize);
      showMore := |results| > PageSize;
    }

    /** The fetch completing: on an OK reply the posts are replaced and the effect runs, which
        also resets the form to the URL's filters, discarding any unsubmitted edit. */
    method PostsFetched(fetched: SearchContent.Fetched)
      modifies this
      ensures searchParams == old(searchParams)
      ensures fetched.NotOk? ==> allPosts == old(allPosts) && filteredPosts == old(filteredPosts)
                                 && filters == old(filters) && showMore == old(showMore)
      ensures fetched.Ok? ==> allPosts == fetched.posts.GetOr([]) && filteredPosts == Shown(Matching(), PageSize)
                              && filters == FiltersOfQuery(searchParams)
                              && (showMore <==> |Matching()| > PageSize) && Consistent()
      ensures old(Consistent()) ==> Consistent()
    {
      if fetched.Ok? {
        allPosts := fetched.posts.GetOr([]);
        ApplyUrl();
      }
    }

    /** A push of a URL with parameters `params`. The effect depends on the search parameters,
        so it runs only when they change; pushing the parameters already shown leaves the
        form, the window and "show more" as they were. */
    method Navigate(params: seq<(string, string)>)
      modifies this
      ensures searchParams == params && allPosts == old(allPosts)
      ensures params != old(searchParams) ==>
                filters == FiltersOfQuery(params) && filteredPosts == Shown(Matching(), PageSize)
                && (showMore <==> |Matching()| > PageSize)
      ensures params == old(searchParams) ==>
                filters == old(filters) && filteredPosts == old(filteredPosts) && showMore == old(showMore)
      ensures old(Consistent()) ==> Consistent()
    {
      if params != searchParams {
        searchParams := params;
        ApplyUrl();
      }
    }

    /** An edit of the form: only the form changes; the results wait for a submit. */
    method SetFilters(f: Filters)
      modifies this`filters
      ensures filters == f
    {
      filters := f;
    }

    /** `handleSubmit`: navigate to the form's non-default values. When that changes the URL,
        the results follow the form, which keeps its values as long as its sort and category
        are not empty; when the URL is the one already shown, nothing else changes and a window
        widened by "show more" stays as it is. */
    method Submit()
      modifies this
      ensures searchParams == SubmitParams(old(filters)) && allPosts == old(allPosts)
      ensures SubmitParams(old(filters)) != old(searchParams) && old(filters).sort != "" && old(filters).category != "" ==>
                filters == old(filters) && filteredPosts == Shown(Results(allPosts, old(filters), false), PageSize)
      ensures SubmitParams(old(filters)) == old(searchParams) ==>
                filters == old(filters) && filteredPosts == old(filteredPosts) && showMore == old(showMore)
      ensures old(Consistent()) ==> Consistent()
    {
      if filters.sort != "" && filters.category != "" {
        SubmitRoundTrip(filters);
      }
      Navigate(SubmitParams(filters));
    }

    /** `handleShowMore`: re-reads the URL and shows nine more; what was visible stays, in
        front. */
    method ShowMore()
      modifies this`filteredPosts, this`showMore
      ensures filteredPosts == Shown(Matching(), |old(filteredPosts)| + PageSize)
      ensures showMore <==> |Matching()| > |old(filteredPosts)| + PageSize
      ensures Consistent()
      ensures old(Consistent()) ==> old(filteredPosts) <= filteredPosts
    {
      var currentCount := |filteredPosts|;
      var results := Matching();
      ShowMoreExtends(results, currentCount);
      filteredPosts := Take(results, currentCount + PageSize);
      showMore := |results| > currentCount + PageSize;
    }

    /** `clearFilters`: the default form and navigation to the bare search page, whose
        parameters give the default filters again. On the bare search page already, the URL
        does not change and the shown results stay as they were. */
    method ClearFilters()
      modifies this
      ensures searchParams == [] && filters == DefaultFilters && allPosts == old(allPosts)
      ensures old(searchParams) != [] ==> filteredPosts == Shown(Results(allPosts, DefaultFilters, false), PageSize)
      ensures old(searchParams) == [] ==> filteredPosts == old(filteredPosts) && showMore == old(showMore)
      ensures old(Consistent()) ==> Consistent()
    {
      filters := DefaultFilters;
      Navigate([]);
    }
  }
}
