/** The `/api/posts` route of src/app/api/posts/route.js: `POST` creates a post from a form,
    `GET` lists posts a page at a time. */
module PostsRoute {
  import opened Text
  import opened Numbers
  import opened Sorting
  import opened Schema
  import opened PostModel
  import Slug
  import Excerpt

  // ---------------------------------------------------------------- POST

  /** The signed-in user as far as the route looks at it: `publicMetadata.isAdmin`, which is
      `None` when the metadata holds no boolean there. */
  datatype User = User(isAdmin: Option<bool>)

  /** An uploaded form file; only its size is consulted. */
  datatype FormFile = FormFile(size: int)

  /** The multipart form; `None` is a field the form does not carry (`formData.get` gives `null`). */
  datatype CreateForm = CreateForm(
    title: Option<string>,
    content: Option<string>,
    category: Option<string>,
    author: Option<string>,
    featuredImage: Option<FormFile>,
    tags: Option<string>)

  /** What the image service does with the file when it is asked to store it. */
  datatype UploadOutcome = Uploaded(image: Image) | UploadFailed

  datatype CreateResponse =
    | PostCreated(post: Post)                  // 201 with `{ success: true, post }`
    | Failure(status: int, error: string)

  function StatusOf(r: CreateResponse): int {
    if r.PostCreated? then 201 else r.status
  }

  /** `!user || user.publicMetadata.isAdmin !== true` is false: only the boolean `true` admits. */
  predicate IsAdmin(user: Option<User>) {
    user.Some? && user.value.isAdmin == Some(true)
  }

  /** `!field`: a missing field and an empty one are both falsy. */
  predicate Blank(field: Option<string>) {
    field.None? || field.value == ""
  }

  predicate MissingField(form: CreateForm) {
    Blank(form.title) || Blank(form.content) || Blank(form.category) || Blank(form.author)
  }

  /** `featuredImage && featuredImage.size > 0`: only then is the upload attempted. */
  predicate WantsUpload(form: CreateForm) {
    form.featuredImage.Some? && form.featuredImage.value.size > 0
  }

  /** All three guards passed: the route goes on to build the post and store it. */
  predicate Proceeds(user: Option<User>, form: CreateForm, upload: UploadOutcome) {
    IsAdmin(user) && !MissingField(form) && !(WantsUpload(form) && upload.UploadFailed?)
  }

  /** `formData.get("tags")?.split(",").map((tag) => tag.trim()) || []`. An array, even `[""]`,
      is truthy, so `[]` comes only from a missing field. */
  function ParseTags(field: Option<string>): (tags: seq<string>)
    ensures field.None? ==> tags == []
    ensures field.Some? ==> |tags| == CountChar(field.value, ',') + 1
    ensures forall k :: 0 <= k < |tags| ==> Trim(tags[k]) == tags[k] && ',' !in tags[k]
  {
    match field
    case None => []
    case Some(s) =>
      var parts := Split(s, ',');
      var tags := seq(|parts|, k requires 0 <= k < |parts| => Trim(parts[k]));
      assert forall k :: 0 <= k < |tags| ==> Trim(tags[k]) == tags[k] && ',' !in tags[k] by {
        forall k | 0 <= k < |tags| ensures Trim(tags[k]) == tags[k] && ',' !in tags[k] {
          TrimmedPiece(parts[k], ',');
        }
      }
      tags
  }

  lemma TrimmedPiece(piece: string, sep: char)
    requires sep !in piece
    ensures Trim(Trim(piece)) == Trim(piece) && sep !in Trim(piece)
  {
    TrimIdempotent(piece);
    TrimFromInput(piece);
  }

  /** Tags written out comma-separated are read back as they were, provided each is already
      trimmed and holds no comma. */
  lemma ParseTagsRoundTrip(tags: seq<string>)
    requires |tags| > 0
    requires forall k :: 0 <= k < |tags| ==> Trim(tags[k]) == tags[k] && ',' !in tags[k]
    ensures ParseTags(Some(Join(tags, ","))) == tags
  {
    SplitJoin(tags, ',');
  }

  /** An empty tags field gives one empty tag, not none. */
  lemma ParseTagsOfEmptyField()
    ensures ParseTags(Some("")) == [""]
  {
  }

  /** The object the route hands to `Post.create` once every guard has passed. */
  function RouteData(form: CreateForm, upload: UploadOutcome, now: int): PostData {
    var title := form.title.GetOr("");
    var content := form.content.GetOr("");
    PostData(title, Slug.GenerateSlug(title), content, Excerpt.ExcerptOf(content),
             form.category.GetOr(""), form.author.GetOr(""), ParseTags(form.tags),
             Some(true), Some(now),
             if WantsUpload(form) && upload.Uploaded? then Some(upload.image) else None)
  }

  /** What a created post holds: the route's slug (the validate hook never has to replace it,
      since an empty slug stays empty when the title is trimmed), the trimmed excerpt, the
      parsed tags, `published` set and dated now, and the uploaded image if there was one. */
  lemma CreatedPostFields(form: CreateForm, upload: UploadOutcome, now: int)
    requires !MissingField(form)
    ensures var p := Created(RouteData(form, upload, now), now);
            && p.slug == Slug.GenerateSlug(form.title.value)
            && p.excerpt == Trim(Excerpt.ExcerptOf(form.content.value))
            && p.title == Trim(form.title.value)
            && p.tags == ParseTags(form.tags)
            && p.published && p.publishedAt == now
            && p.content == form.content.value && p.category == form.category.value
            && (p.featuredImage.Some? <==> WantsUpload(form) && upload.Uploaded?)
  {
    CreatedSlug(form, upload, now);
    CreatedExcerpt(form, upload, now);
    CreatedTags(form, upload, now);
  }

  lemma CreatedSlug(form: CreateForm, upload: UploadOutcome, now: int)
    requires !MissingField(form)
    ensures Created(RouteData(form, upload, now), now).slug == Slug.GenerateSlug(form.title.value)
  {
    var title := form.title.value;
    var g := Slug.GenerateSlug(title);
    var c := Cast(RouteData(form, upload, now), now);
    Slug.SlugShape(title);
    NoSpaceOfSlug(g);
    TrimNoSpace(g);
    assert c.slug == g;
    if g == "" {
      Slug.SlugEmptyOfTrimmed(title);
      HookSlugIsGenerated(c.title);
    }
    assert ValidateHook(c).slug == g;
  }

  lemma CreatedExcerpt(form: CreateForm, upload: UploadOutcome, now: int)
    requires !MissingField(form)
    ensures Created(RouteData(form, upload, now), now).excerpt == Trim(Excerpt.ExcerptOf(form.content.value))
  {
    var c := Cast(RouteData(form, upload, now), now);
    assert ValidateHook(c).excerpt == Trim(Excerpt.ExcerptOf(form.content.value));
  }

  lemma CreatedTags(form: CreateForm, upload: UploadOutcome, now: int)
    ensures Created(RouteData(form, upload, now), now).tags == ParseTags(form.tags)
  {
    TrimEachOfTrimmed(ParseTags(form.tags));
  }

  /** A category outside the schema's list passes the route's own check but not validation. */
  lemma CategoryOutsideEnumRejected(form: CreateForm, upload: UploadOutcome, now: int)
    requires form.category.Some? && form.category.value !in Categories
    ensures !IsValidPost(Cast(RouteData(form, upload, now), now))
  {
  }

  /** A title made only of whitespace passes `!title` but is empty once trimmed, so the
      `required` validator rejects it. */
  lemma BlankTitleRejected(form: CreateForm, upload: UploadOutcome, now: int)
    requires form.title.Some? && form.title.value != "" && NoneButSpace(form.title.value)
    ensures !IsValidPost(Cast(RouteData(form, upload, now), now))
  {
    TrimAllSpace(form.title.value);
  }

  predicate NoneButSpace(s: string) {
    forall i :: 0 <= i < |s| ==> IsSpace(s[i])
  }

  lemma {:induction false} TrimAllSpace(s: string)
    requires NoneButSpace(s)
    ensures Trim(s) == ""
  {
    if s != [] {
      TrimAllSpace(s[..|s| - 1]);
    }
  }

  /** The store failures the route tells apart. */
  datatype StoreError =
    | DuplicateKey(keys: set<string>)          // code 11000; `keys` is `keyPattern`
    | ValidationFailed(errors: seq<FieldError>)
    | OtherError(message: string)

  function StoreErrorMessage(e: StoreError): string {
    match e
    case DuplicateKey(_) => "E11000 duplicate key error"
    case ValidationFailed(errors) => ValidationMessage("Post", errors)
    case OtherError(m) => m
  }

  const DuplicateTitleMessage := "A post with this title already exists. Please choose a different title."

  /** The `catch` block: a duplicate slug is the caller's fault (400); everything else,
      validation failures included, is an internal error (500) carrying the error's message. */
  function ErrorResponse(e: StoreError): (r: CreateResponse)
    ensures r.Failure?
    ensures r.status == 400 <==> e.DuplicateKey? && "slug" in e.keys
    ensures r.status != 400 ==> r == Failure(500, "Internal server error: " + StoreErrorMessage(e))
  {
    if e.DuplicateKey? && "slug" in e.keys then Failure(400, DuplicateTitleMessage)
    else Failure(500, "Internal server error: " + StoreErrorMessage(e))
  }

  /** `POST /api/posts`: admin check, required fields, image upload, then `Post.create` with
      `published: true`. Each guard that fails answers before anything later is attempted. */
  method CreatePost(store: PostStore, user: Option<User>, form: CreateForm, upload: UploadOutcome, now: int)
    returns (res: CreateResponse)
    requires store.Valid()
    modifies store
    ensures store.Valid()
    ensures !res.PostCreated? ==> store.posts == old(store.posts)
    ensures !IsAdmin(user) ==> res == Failure(401, "Unauthorized")
    ensures IsAdmin(user) && MissingField(form) ==> res == Failure(400, "Missing required fields")
    ensures IsAdmin(user) && !MissingField(form) && WantsUpload(form) && upload.UploadFailed?
            ==> res == Failure(500, "Image upload failed")
    ensures Proceeds(user, form, upload) ==>
              var data := RouteData(form, upload, now);
              && (!IsValidPost(Cast(data, now)) ==> StatusOf(res) == 500)
              && (IsValidPost(Cast(data, now)) && SlugTaken(old(store.posts), Created(data, now).slug) ==>
                    res == Failure(400, DuplicateTitleMessage))
              && (IsValidPost(Cast(data, now)) && !SlugTaken(old(store.posts), Created(data, now).slug) ==>
                    res == PostCreated(Created(data, now)))
    ensures res.PostCreated? ==> Proceeds(user, form, upload) && res.post.published
                                 && store.posts == old(store.posts) + [res.post]
  {
    if !IsAdmin(user) {
      return Failure(401, "Unauthorized");
    }
    if MissingField(form) {
      return Failure(400, "Missing required fields");
    }
    if WantsUpload(form) && upload.UploadFailed? {
      return Failure(500, "Image upload failed");
    }
    var data := RouteData(form, upload, now);
    CreatedPublished(data, now);
    var outcome := store.Create(data, now);
    res := ResponseOf(outcome);
  }

  /** The answer to each outcome of `Post.create`. */
  function ResponseOf(outcome: SaveOutcome): (r: CreateResponse)
    ensures outcome.Saved? ==> r == PostCreated(outcome.post)
    ensures outcome.Rejected? ==> StatusOf(r) == 500
    ensures outcome.DuplicateSlug? ==> r == Failure(400, DuplicateTitleMessage)
  {
    match outcome
    case Saved(p) => PostCreated(p)
    case Rejected(errors) => ErrorResponse(ValidationFailed(errors))
    case DuplicateSlug => ErrorResponse(DuplicateKey({"slug"}))
  }

  lemma CreatedPublished(data: PostData, now: int)
    requires data.published == Some(true)
    ensures Created(data, now).published
  {
  }

  // ---------------------------------------------------------------- GET

  /** The query-string parameters the listing reads. */
  datatype ListParams = ListParams(
    page: Option<string>,
    limit: Option<string>,
    category: Option<string>,
    published: Option<string>)

  /** A post as listed: `.select("-comments")`. */
  datatype PostView = PostView(
    title: string,
    slug: string,
    content: string,
    excerpt: string,
    category: string,
    author: string,
    tags: seq<string>,
    published: bool,
    publishedAt: int,
    createdAt: int,
    featuredImage: Option<Image>)

  function View(p: Post): PostView {
    PostView(p.title, p.slug, p.content, p.excerpt, p.category, p.author, p.tags, p.published,
             p.publishedAt, p.createdAt, p.featuredImage)
  }

  function Views(ps: seq<Post>): (vs: seq<PostView>)
  {
    seq(|ps|, k requires 0 <= k < |ps| => View(ps[k]))
  }

  /** The query object: `category` only when the parameter is non-empty, `published: true`
      unless the parameter is exactly "false". */
  datatype ListQuery = ListQuery(category: Option<string>, publishedOnly: bool)

  function QueryOf(params: ListParams): ListQuery {
    ListQuery(if Blank(params.category) then None else params.category,
              params.published != Some("false"))
  }

  predicate Matches(q: ListQuery, p: Post) {
    (q.category.Some? ==> p.category == q.category.value) && (q.publishedOnly ==> p.published)
  }

  /** `{ publishedAt: -1, createdAt: -1 }`. */
  function PostKey(p: Post): Key {
    Key(p.publishedAt, p.createdAt)
  }

  datatype Pagination = Pagination(page: int, limit: int, total: nat, pages: int)

  datatype ListResponse =
    | PostList(posts: seq<PostView>, pagination: Pagination)
    | ListFailed(status: int, error: string)

  function PageParam(params: ListParams): int { IntParam(params.page, 1) }
  function LimitParam(params: ListParams): int { IntParam(params.limit, 10) }

  /** The posts matching the query, newest first. */
  function Matching(posts: seq<Post>, q: ListQuery): seq<Post> {
    SortBy(Filter(posts, p => Matches(q, p)), PostKey, true)
  }

  /** `GET /api/posts`. A negative skip makes the store fail, which the route reports as 500. */
  function ListPosts(posts: seq<Post>, params: ListParams): ListResponse {
    PageOf(Matching(posts, QueryOf(params)), PageParam(params), LimitParam(params))
  }

  /** `.skip((page - 1) * limit).limit(limit)` over the matches, and the reply built from it. */
  function PageOf(matching: seq<Post>, page: int, limit: int): ListResponse
    requires limit != 0
  {
    match Window(matching, (page - 1) * limit, limit)
    case None => ListFailed(500, "Internal server error")
    case Some(window) =>
      PostList(Views(window), Pagination(page, limit, |matching|, CeilDiv(|matching|, limit)))
  }

  lemma PageOfShape(matching: seq<Post>, page: int, limit: int)
    requires limit != 0
    ensures var r := PageOf(matching, page, limit);
            var skip := Min((page - 1) * limit, |matching|);
            && (r.ListFailed? <==> (page - 1) * limit < 0)
            && (r.PostList? ==>
                  && r.pagination == Pagination(page, limit, |matching|, CeilDiv(|matching|, limit))
                  && skip + |r.posts| <= |matching|
                  && r.posts == Views(matching[skip..skip + |r.posts|])
                  && (limit > 0 ==> |r.posts| == Min(limit, |matching| - skip)))
  {
  }

  /** Missing, unparsable and zero parameters fall back to page 1 of 10; a decimal parameter is
      read as written. */
  lemma ListParamDefaults(params: ListParams, n: nat)
    ensures params.page.None? ==> PageParam(params) == 1
    ensures params.limit.None? ==> LimitParam(params) == 10
    ensures PageParam(params) != 0 && LimitParam(params) != 0
    ensures params.page == Some(DecimalString(n)) ==> PageParam(params) == if n == 0 then 1 else n
    ensures params.limit == Some(DecimalString(n)) ==> LimitParam(params) == if n == 0 then 10 else n
  {
    IntParamDecimal(n, 1);
    IntParamDecimal(n, 10);
  }

  /** The listing fails exactly when the skip would be negative. */
  lemma ListPostsFails(posts: seq<Post>, params: ListParams)
    ensures ListPosts(posts, params).ListFailed? <==> (PageParam(params) - 1) * LimitParam(params) < 0
  {
  }

  /** The matches are exactly the stored posts that pass the query, newest first. */
  lemma MatchingFacts(posts: seq<Post>, q: ListQuery)
    ensures forall k :: 0 <= k < |Matching(posts, q)| ==> Matches(q, Matching(posts, q)[k])
    ensures forall k :: 0 <= k < |posts| && Matches(q, posts[k]) ==> posts[k] in Matching(posts, q)
    ensures Sorted(Matching(posts, q), PostKey, true)
  {
    SortFilterMembers(posts, p => Matches(q, p), PostKey, true);
  }

  /** With a non-negative skip the listing succeeds: a page is a run of the matches starting at
      the skip, without comments; `total` counts every match and `pages` is
      `ceil(total / limit)`. */
  lemma ListPostsPage(posts: seq<Post>, params: ListParams)
    requires (PageParam(params) - 1) * LimitParam(params) >= 0
    ensures var r := ListPosts(posts, params);
            var limit := LimitParam(params);
            var matching := Matching(posts, QueryOf(params));
            var skip := Min((PageParam(params) - 1) * limit, |matching|);
            && r.PostList?
            && r.pagination == Pagination(PageParam(params), limit, |matching|, CeilDiv(|matching|, limit))
            && skip + |r.posts| <= |matching|
            && r.posts == Views(matching[skip..skip + |r.posts|])
  {
    PageOfList(Matching(posts, QueryOf(params)), PageParam(params), LimitParam(params));
  }

  /** `PageOfShape` for a skip known to be non-negative. */
  lemma PageOfList(matching: seq<Post>, page: int, limit: int)
    requires limit != 0 && (page - 1) * limit >= 0
    ensures var r := PageOf(matching, page, limit);
            var skip := Min((page - 1) * limit, |matching|);
            && r.PostList?
            && r.pagination == Pagination(page, limit, |matching|, CeilDiv(|matching|, limit))
            && skip + |r.posts| <= |matching|
            && r.posts == Views(matching[skip..skip + |r.posts|])
  {
    PageOfShape(matching, page, limit);
  }

  /** With a positive limit a page holds `limit` matches, or what is left after the skip. */
  lemma ListPostsPageSize(posts: seq<Post>, params: ListParams)
    requires ListPosts(posts, params).PostList? && LimitParam(params) > 0
    ensures var matching := Matching(posts, QueryOf(params));
            var skip := Min((PageParam(params) - 1) * LimitParam(params), |matching|);
            |ListPosts(posts, params).posts| == Min(LimitParam(params), |matching| - skip)
  {
    PageOfShape(Matching(posts, QueryOf(params)), PageParam(params), LimitParam(params));
  }

  /** Every listed post matches the query: published unless the parameter is "false", of the
      requested category if one is given; and the page is ordered newest first. */
  lemma ListPostsMatch(posts: seq<Post>, params: ListParams)
    requires ListPosts(posts, params).PostList?
    ensures var r := ListPosts(posts, params);
            var q := QueryOf(params);
            && (forall k :: 0 <= k < |r.posts| ==> ViewMatches(q, r.posts[k]))
            && (forall i, j :: 0 <= i < j < |r.posts| ==> KeyLe(ViewKey(r.posts[j]), ViewKey(r.posts[i])))
  {
    var q := QueryOf(params);
    var limit := LimitParam(params);
    var matching := Matching(posts, q);
    var skip := Min((PageParam(params) - 1) * limit, |matching|);
    var r := ListPosts(posts, params);
    ListPostsPage(posts, params);
    MatchingFacts(posts, q);
    SliceViews(matching, q, skip, skip + |r.posts|);
  }

  /** The query seen on a listed post. */
  predicate ViewMatches(q: ListQuery, v: PostView) {
    (q.category.Some? ==> v.category == q.category.value) && (q.publishedOnly ==> v.published)
  }

  function ViewKey(v: PostView): Key {
    Key(v.publishedAt, v.createdAt)
  }

  lemma SliceViews(matching: seq<Post>, q: ListQuery, lo: nat, hi: nat)
    requires lo <= hi <= |matching|
    requires forall k :: 0 <= k < |matching| ==> Matches(q, matching[k])
    requires Sorted(matching, PostKey, true)
    ensures var vs := Views(matching[lo..hi]);
            && (forall k :: 0 <= k < |vs| ==> ViewMatches(q, vs[k]))
            && (forall i, j :: 0 <= i < j < |vs| ==> KeyLe(ViewKey(vs[j]), ViewKey(vs[i])))
  {
    var vs := Views(matching[lo..hi]);
    forall k | 0 <= k < |vs| ensures ViewMatches(q, vs[k]) {
      assert vs[k] == View(matching[lo + k]);
    }
    forall i, j | 0 <= i < j < |vs| ensures KeyLe(ViewKey(vs[j]), ViewKey(vs[i])) {
      assert vs[i] == View(matching[lo + i]) && vs[j] == View(matching[lo + j]);
      assert InOrder(PostKey(matching[lo + i]), PostKey(matching[lo + j]), true);
    }
  }
}
