/** The blog listing screen (src/app/blog/BlogContent.jsx): the category taken from the URL,
    the request it sends to `GET /api/posts`, how it reads the reply, the "see more" window of
    ten posts at a time, the category labels and the reading-time estimate. */
module BlogContent {
  import opened Text
  import opened Numbers
  import opened Sorting
  import PostQueries
  import opened PostModel
  import opened PostsRoute

  // ---------------------------------------------------------------- categories

  datatype CategoryEntry = CategoryEntry(value: string, caption: string)

  /** The category buttons, in the order shown. */
  const CategoryTable: seq<CategoryEntry> := [
    CategoryEntry("all", "All Posts"),
    CategoryEntry("tech", "Tech"),
    CategoryEntry("startup", "Startup"),
    CategoryEntry("vacancy", "Vacancy"),
    CategoryEntry("finance", "Finance"),
    CategoryEntry("news", "News")
  ]

  /** `CATEGORIES.find((cat) => cat.value === value)?.label`: the label of the first entry with
      that value. */
  function FindLabel(table: seq<CategoryEntry>, value: string): (r: Option<string>)
    ensures r.None? <==> forall k :: 0 <= k < |table| ==> table[k].value != value
    ensures r.Some? ==> exists k :: 0 <= k < |table| && table[k].value == value && table[k].caption == r.value
  {
    if table == [] then None
    else if table[0].value == value then Some(table[0].caption)
    else
      var r := FindLabel(table[1..], value);
      assert r.Some? ==> exists k :: 1 <= k < |table| && table[k].value == value && table[k].caption == r.value by {
        if r.Some? {
          var k :| 0 <= k < |table[1..]| && table[1..][k].value == value && table[1..][k].caption == r.value;
          assert table[k + 1] == table[1..][k];
        }
      }
      r
  }

  /** The badge of a post: its category's label, or the raw category when the table has none. */
  function CategoryLabel(category: string): (badge: string)
    ensures (forall k :: 0 <= k < |CategoryTable| ==> CategoryTable[k].value != category) ==> badge == category
    ensures (exists k :: 0 <= k < |CategoryTable| && CategoryTable[k].value == category) ==>
              exists k :: 0 <= k < |CategoryTable| && CategoryTable[k].value == category && CategoryTable[k].caption == badge
  {
    FindLabel(CategoryTable, category).GetOr(category)
  }

  /** Every category a post may be stored with has a button of its own, and its badge is that
      button's label. */
  lemma StoredCategoriesLabelled(category: string)
    requires category in Categories
    ensures exists k :: 1 <= k < |CategoryTable| && CategoryTable[k].value == category
    ensures CategoryLabel(category) != category
  {
    var k :| 0 <= k < |Categories| && Categories[k] == category;
    assert CategoryTable[k + 1].value == Categories[k];
    var j :| 0 <= j < |CategoryTable| && CategoryTable[j].value == category
             && CategoryTable[j].caption == CategoryLabel(category);
    CaptionsDiffer(j);
  }

  /** No entry of the table is captioned with its own value. */
  lemma CaptionsDiffer(j: int)
    requires 0 <= j < |CategoryTable|
    ensures CategoryTable[j].caption != CategoryTable[j].value
  {
    var e := CategoryTable[j];
    assert e.caption[0] != e.value[0];
  }

  // ---------------------------------------------------------------- the request

  /** `urlCategory || "all"`. */
  function SelectedCategory(urlCategory: Option<string>): (c: string)
    ensures c != ""
    ensures urlCategory.None? ==> c == "all"
  {
    PostQueries.StringParam(urlCategory, "all")
  }

  /** The parameters of the request: none for "all", otherwise only `category`. */
  function FetchParams(selected: string): ListParams {
    if selected == "all" then ListParams(None, None, None, None)
    else ListParams(None, None, Some(selected), None)
  }

  /** The request's path. */
  function FetchUrl(selected: string): string {
    if selected == "all" then "/api/posts" else "/api/posts?category=" + selected
  }

  /** The path carries a `category` parameter exactly when the request's parameters hold one,
      with the same value, and nothing else. */
  lemma FetchUrlCarriesParams(selected: string)
    ensures var params := FetchParams(selected);
            && params.page.None? && params.limit.None? && params.published.None?
            && (params.category.None? ==> FetchUrl(selected) == "/api/posts")
            && (params.category.Some? ==> FetchUrl(selected) == "/api/posts?category=" + params.category.value)
  {
  }

  /** The route reads the request as page 1 of 10 published posts, of the selected category
      unless it is "all". */
  lemma FetchQuery(urlCategory: Option<string>)
    ensures var selected := SelectedCategory(urlCategory);
            var params := FetchParams(selected);
            && PageParam(params) == 1 && LimitParam(params) == 10
            && QueryOf(params) == ListQuery(if selected == "all" then None else Some(selected), true)
  {
    ListParamDefaults(FetchParams(SelectedCategory(urlCategory)), 0);
  }

  // ---------------------------------------------------------------- the reply

  /** The JSON body the screen reads: `success`, `posts` and `error`, each possibly absent. */
  datatype Body = Body(success: Option<bool>, posts: Option<seq<PostView>>, error: Option<string>)

  /** The listing route's body: `{posts, pagination}` or `{error}`; neither has `success`. */
  function BodyOf(r: ListResponse): (b: Body)
    ensures b.success.None?
    ensures b.posts.Some? <==> r.PostList?
  {
    match r
    case PostList(posts, _) => Body(None, Some(posts), None)
    case ListFailed(_, error) => Body(None, None, Some(error))
  }

  /** The reading as written: `data.success ? data.posts || [] : []`. */
  function PostsFromBodyAsWritten(b: Body): (posts: seq<PostView>)
    ensures b.success != Some(true) ==> posts == []
  {
    if b.success == Some(true) then b.posts.GetOr([]) else []
  }

  /** As written, the screen shows no post whatever the store holds and whatever category is
      selected: the route never sends `success`. */
  lemma AsWrittenShowsNothing(store: seq<Post>, urlCategory: Option<string>)
    ensures PostsFromBodyAsWritten(BodyOf(ListPosts(store, FetchParams(SelectedCategory(urlCategory))))) == []
  {
  }

  /** A store holding one published post: the route lists it, the screen as written drops it. */
  lemma AsWrittenDropsListedPost(p: Post)
    requires p.published
    ensures ListPosts([p], FetchParams("all")).PostList?
    ensures ListPosts([p], FetchParams("all")).posts == [View(p)]
    ensures PostsFromBodyAsWritten(BodyOf(ListPosts([p], FetchParams("all")))) == []
  {
    var params := FetchParams("all");
    var q := QueryOf(params);
    ListParamDefaults(params, 0);
    var matching := Matching([p], q);
    MatchingFacts([p], q);
    assert Matches(q, p);
    assert |matching| <= 1 by {
      assert multiset(Filter([p], x => Matches(q, x))) <= multiset([p]);
    }
    assert p in matching;
    assert matching == [p];
    ListPostsPage([p], params);
  }

  /** The reading the screen evidently intends: the body's posts when it has them, none
      otherwise. */
  function PostsFromBody(b: Body): (posts: seq<PostView>)
    ensures b.posts.None? ==> posts == []
  {
    b.posts.GetOr([])
  }

  /** Corrected, the screen shows exactly the page the route lists, and nothing on a failure. */
  lemma PostsFromBodyShowsPage(r: ListResponse)
    ensures PostsFromBody(BodyOf(r)) == if r.PostList? then r.posts else []
  {
  }

  /** The default page the screen requests holds at most ten posts, all published and of the
      selected category, newest first. */
  lemma FetchedPage(store: seq<Post>, urlCategory: Option<string>)
    ensures var selected := SelectedCategory(urlCategory);
            var posts := PostsFromBody(BodyOf(ListPosts(store, FetchParams(selected))));
            && |posts| <= 10
            && (forall k :: 0 <= k < |posts| ==> posts[k].published && (selected != "all" ==> posts[k].category == selected))
            && (forall i, j :: 0 <= i < j < |posts| ==> KeyLe(ViewKey(posts[j]), ViewKey(posts[i])))
  {
    var selected := SelectedCategory(urlCategory);
    var params := FetchParams(selected);
    FetchQuery(urlCategory);
    assert ListPosts(store, params).PostList?;
    ListPostsPage(store, params);
    ListPostsMatch(store, params);
  }

  // ---------------------------------------------------------------- the window

  /** `posts.slice(0, visibleCount)`. */
  function VisiblePosts(posts: seq<PostView>, visibleCount: nat): seq<PostView> {
    Take(posts, visibleCount)
  }

  /** `visiblePosts.length < posts.length`. */
  predicate HasMore(posts: seq<PostView>, visibleCount: nat) {
    |VisiblePosts(posts, visibleCount)| < |posts|
  }

  /** "See more" is offered exactly while fewer posts are visible than were fetched. */
  lemma HasMoreIff(posts: seq<PostView>, visibleCount: nat)
    ensures HasMore(posts, visibleCount) <==> visibleCount < |posts|
  {
  }

  /** Since the request leaves the route's limit of ten in place and the window starts at ten,
      "see more" never appears. */
  lemma NeverMoreToSee(store: seq<Post>, urlCategory: Option<string>, visibleCount: nat)
    requires visibleCount >= 10
    ensures !HasMore(PostsFromBody(BodyOf(ListPosts(store, FetchParams(SelectedCategory(urlCategory))))), visibleCount)
  {
    FetchedPage(store, urlCategory);
  }

  class BlogContentState {
    var posts: seq<PostView>
    var visibleCount: nat
    var selectedCategory: string

    /** The window grows by ten from ten. */
    predicate Valid()
      reads this
    {
      visibleCount >= 10 && visibleCount % 10 == 0
    }

    constructor (urlCategory: Option<string>)
      ensures posts == [] && visibleCount == 10 && selectedCategory == SelectedCategory(urlCategory)
      ensures Valid()
    {
      posts := [];
      visibleCount := 10;
      selectedCategory := SelectedCategory(urlCategory);
    }

    /** A new URL: the category follows it and the window is kept. The fetch effect depends
        only on the selected category, so a request (`Some` of its URL) goes out only when the
        category changes; otherwise none does (`None`). */
    method Navigate(urlCategory: Option<string>) returns (url: Option<string>)
      modifies this`selectedCategory
      ensures selectedCategory == SelectedCategory(urlCategory)
      ensures selectedCategory == old(selectedCategory) ==> url == None
      ensures selectedCategory != old(selectedCategory) ==> url == Some(FetchUrl(selectedCategory))
    {
      var selected := SelectedCategory(urlCategory);
      if selected == selectedCategory {
        url := None;
      } else {
        selectedCategory := selected;
        url := Some(FetchUrl(selected));
      }
    }

    /** `fetchPosts` completing with the route's reply, or failing (`None`), which clears the
        posts. The reply is read as the screen evidently intends. */
    method PostsFetched(reply: Option<ListResponse>)
      modifies this`posts
      ensures posts == if reply.Some? && reply.value.PostList? then reply.value.posts else []
    {
      if reply.Some? {
        PostsFromBodyShowsPage(reply.value);
        posts := PostsFromBody(BodyOf(reply.value));
      } else {
        posts := [];
      }
    }

    /** `loadMore`: ten more; what was visible stays, in front. */
    method LoadMore()
      requires Valid()
      modifies this`visibleCount
      ensures visibleCount == old(visibleCount) + 10
      ensures VisiblePosts(posts, old(visibleCount)) <= VisiblePosts(posts, visibleCount)
      ensures Valid()
    {
      visibleCount := visibleCount + 10;
    }
  }

  // ---------------------------------------------------------------- reading time

  /** `text.split(/\s+/)`: the pieces between runs of white space; white space at either end
      gives an empty piece there. */
  function Words(s: string): (w: seq<string>)
    ensures |w| > 0
    ensures forall k :: 0 <= k < |w| ==> NoSpace(w[k])
    decreases |s|
  {
    if s == [] then [""]
    else if IsSpace(s[0]) then
      [""] + Words(TrimStart(s))
    else
      var rest := Words(s[1..]);
      [[s[0]] + rest[0]] + rest[1..]
  }

  /** `calculateReadingTime`: three minutes for an absent or empty text, otherwise one minute
      per 150 pieces, rounded up, and at least one. */
  function ReadingTime(text: string): (minutes: int)
    ensures minutes >= 1
    ensures text == "" ==> minutes == 3
    ensures text != "" ==> (minutes - 1) * 150 < |Words(text)| <= minutes * 150
  {
    if text == "" then 3 else Max(1, CeilDiv(|Words(text)|, 150))
  }

  function Max(a: int, b: int): int {
    if a >= b then a else b
  }

  /** A non-space character joins the first piece of what follows. */
  lemma WordsCons(c: char, u: string)
    requires !IsSpace(c)
    ensures Words([c] + u) == [[c] + Words(u)[0]] + Words(u)[1..]
  {
    var s := [c] + u;
    assert s[0] == c && s[1..] == u;
  }

  /** A single space before a word starts a new piece. */
  lemma WordsSpace(rest: string)
    requires rest != [] && !IsSpace(rest[0])
    ensures Words([' '] + rest) == [""] + Words(rest)
  {
    var t := [' '] + rest;
    assert t[0] == ' ' && t[1..] == rest;
    TrimStartOfNoSpace(rest);
    assert TrimStart(t) == rest;
  }

  /** A run of non-space characters joins the first piece of what follows. */
  lemma {:induction false} WordsPrefix(a: string, t: string)
    requires NoSpace(a)
    ensures Words(a + t) == [a + Words(t)[0]] + Words(t)[1..]
  {
    if a == [] {
      WordsPrefixNil(a, t);
    } else {
      WordsPrefix(a[1..], t);
      WordsPrefixStep(a, t);
    }
  }

  lemma WordsPrefixNil(a: string, t: string)
    requires a == []
    ensures Words(a + t) == [a + Words(t)[0]] + Words(t)[1..]
  {
    var w := Words(t);
    assert a + t == t && a + w[0] == w[0] && [w[0]] + w[1..] == w;
  }

  lemma WordsPrefixStep(a: string, t: string)
    requires a != [] && !IsSpace(a[0])
    requires Words(a[1..] + t) == [a[1..] + Words(t)[0]] + Words(t)[1..]
    ensures Words(a + t) == [a + Words(t)[0]] + Words(t)[1..]
  {
    var u := a[1..] + t;
    ConsSplit(a, t);
    WordsCons(a[0], u);
    PieceCons(a, Words(t)[0], Words(t)[1..], Words(u));
  }

  lemma ConsSplit(a: string, t: string)
    requires a != []
    ensures a + t == [a[0]] + (a[1..] + t)
  {
    assert a == [a[0]] + a[1..];
  }

  /** Sequence bookkeeping for `WordsPrefixStep`, kept apart from `Words`. */
  lemma PieceCons(a: string, w0: string, wr: seq<string>, x: seq<string>)
    requires a != [] && x == [a[1..] + w0] + wr
    ensures [[a[0]] + x[0]] + x[1..] == [a + w0] + wr
  {
    assert x[0] == a[1..] + w0 && x[1..] == wr;
    assert [a[0]] + (a[1..] + w0) == a + w0;
  }

  lemma JoinStarts(parts: seq<string>, sep: string)
    requires |parts| > 0
    ensures |Join(parts, sep)| >= |parts[0]| && Join(parts, sep)[..|parts[0]|] == parts[0]
  {
    if |parts| > 1 {
      assert Join(parts, sep) == parts[0] + (sep + Join(parts[1..], sep));
    }
  }

  /** Splitting words joined by single spaces gives the words back, so the estimate counts
      them. */
  lemma {:induction false} WordsOfJoin(ws: seq<string>)
    requires |ws| > 0
    requires forall k :: 0 <= k < |ws| ==> ws[k] != "" && NoSpace(ws[k])
    ensures Words(Join(ws, " ")) == ws
  {
    if |ws| == 1 {
      WordsPrefix(ws[0], "");
      assert ws[0] + "" == ws[0];
    } else {
      var rest := Join(ws[1..], " ");
      WordsOfJoin(ws[1..]);
      JoinStarts(ws[1..], " ");
      assert rest[0] == ws[1][0];
      WordsSpace(rest);
      assert Join(ws, " ") == ws[0] + ([' '] + rest);
      WordsPrefix(ws[0], [' '] + rest);
      assert ws[0] + "" == ws[0];
      assert [ws[0]] + ws[1..] == ws;
    }
  }

  /** The estimate for words separated by single spaces. */
  lemma ReadingTimeOfWords(ws: seq<string>)
    requires |ws| > 0
    requires forall k :: 0 <= k < |ws| ==> ws[k] != "" && NoSpace(ws[k])
    ensures ReadingTime(Join(ws, " ")) == Max(1, CeilDiv(|ws|, 150))
  {
    WordsOfJoin(ws);
    JoinStarts(ws, " ");
  }
}
