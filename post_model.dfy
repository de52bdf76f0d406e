/** The post schema of src/lib/models/post.model.js: the stored shape of a post and its
    embedded comments, the `trim` setters and defaults applied when a document is built, the
    `required`/`enum` validators, the two hooks that fill `slug` and `excerpt`, and the unique
    index on `slug`. */
module PostModel {
  import opened Text
  import Slug
  import Excerpt
  import Numbers
  import opened Schema

  /** The values the `category` path accepts. */
  const Categories: seq<string> := ["tech", "startup", "vacancy", "finance", "news"]

  /** The upload service's description of a stored image. */
  datatype Image = Image(url: string, fileId: string, thumbnailUrl: string)

  datatype Comment = Comment(
    id: string,
    author: string,
    email: string,
    content: string,
    createdAt: int,
    isApproved: bool)

  datatype Post = Post(
    title: string,
    slug: string,            // "" stands for an unset slug: `!this.slug` holds for both
    content: string,
    excerpt: string,         // likewise
    category: string,
    author: string,
    tags: seq<string>,
    published: bool,
    publishedAt: int,
    createdAt: int,
    featuredImage: Option<Image>,
    comments: seq<Comment>)

  /** The plain object handed to `Post.create`: the paths it sets, with `None` for the two
      paths that have defaults and may be left out. */
  datatype PostData = PostData(
    title: string,
    slug: string,
    content: string,
    excerpt: string,
    category: string,
    author: string,
    tags: seq<string>,
    published: Option<bool>,
    publishedAt: Option<int>,
    featuredImage: Option<Image>)

  /** A new embedded comment: its text paths pass through their `trim` setters, `createdAt`
      defaults to now, and it starts unapproved. */
  function NewComment(id: string, author: string, email: string, content: string, now: int): (c: Comment)
    ensures !c.isApproved && c.createdAt == now
    ensures c.author == Trim(author) && c.email == Trim(email) && c.content == Trim(content)
  {
    Comment(id, Trim(author), Trim(email), Trim(content), now, false)
  }

  /** The document built from `data` at time `now`: `title`, `slug`, `excerpt`, `author` and each
      tag are trimmed by their setters (`content` has none); `published` defaults to false,
      `publishedAt` and the `createdAt` timestamp to now, `comments` to empty. */
  function Cast(data: PostData, now: int): (p: Post)
    ensures p.published == data.published.GetOr(false)
    ensures p.publishedAt == data.publishedAt.GetOr(now) && p.createdAt == now
    ensures p.comments == [] && |p.tags| == |data.tags|
    ensures p.content == data.content && p.category == data.category
  {
    Post(Trim(data.title), Trim(data.slug), data.content, Trim(data.excerpt), data.category,
         Trim(data.author), TrimEach(data.tags),
         data.published.GetOr(false), data.publishedAt.GetOr(now), now, data.featuredImage, [])
  }

  /** The setter of the tags array: each tag trimmed. */
  function TrimEach(tags: seq<string>): (r: seq<string>)
    ensures |r| == |tags|
  {
    seq(|tags|, i requires 0 <= i < |tags| => Trim(tags[i]))
  }

  /** Tags that are already trimmed pass the setter unchanged. */
  lemma TrimEachOfTrimmed(tags: seq<string>)
    requires forall k :: 0 <= k < |tags| ==> Trim(tags[k]) == tags[k]
    ensures TrimEach(tags) == tags
  {
  }

  /** The trimmed paths of a cast document carry no surrounding whitespace. */
  lemma CastTrims(data: PostData, now: int)
    ensures var p := Cast(data, now);
            && Trim(p.title) == p.title && Trim(p.slug) == p.slug && Trim(p.excerpt) == p.excerpt
            && Trim(p.author) == p.author
            && forall i :: 0 <= i < |p.tags| ==> Trim(p.tags[i]) == p.tags[i]
  {
    var p := Cast(data, now);
    TrimIdempotent(data.title);
    TrimIdempotent(data.slug);
    TrimIdempotent(data.excerpt);
    TrimIdempotent(data.author);
    forall i | 0 <= i < |p.tags| ensures Trim(p.tags[i]) == p.tags[i] {
      TrimIdempotent(data.tags[i]);
    }
  }

  /** A post created without `published` and `publishedAt` is a draft dated now. */
  lemma CastDefaults(data: PostData, now: int)
    requires data.published.None? && data.publishedAt.None?
    ensures !Cast(data, now).published && Cast(data, now).publishedAt == now
  {
  }

  /** The slug a hook writes: `generateSlug(title)` passed through the `trim` setter of `slug`. */
  function HookSlug(title: string): (s: string)
    ensures Slug.IsSlug(s)
  {
    Slug.SlugShape(title);
    Slug.SlugTrimIsNoOp(title);
    var g := Slug.GenerateSlug(title);
    NoSpaceOfSlug(g);
    TrimNoSpace(g);
    Trim(g)
  }

  lemma NoSpaceOfSlug(s: string)
    requires Slug.IsSlug(s)
    ensures NoSpace(s)
  {
    forall i | 0 <= i < |s| ensures !IsSpace(s[i]) {
      assert Slug.IsSlugChar(s[i]);
    }
  }

  /** The setter adds nothing: the hook's slug is exactly `generateSlug(title)`. */
  lemma HookSlugIsGenerated(title: string)
    ensures HookSlug(title) == Slug.GenerateSlug(title)
  {
    Slug.SlugShape(title);
    NoSpaceOfSlug(Slug.GenerateSlug(title));
    TrimNoSpace(Slug.GenerateSlug(title));
  }

  /** The excerpt a hook writes: the excerpt rule passed through the `trim` setter of `excerpt`. */
  function HookExcerpt(content: string): (e: string)
    ensures |e| <= Excerpt.ExcerptLength + |Excerpt.Ellipsis|
    ensures Trim(e) == e
  {
    TrimIdempotent(Excerpt.ExcerptOf(content));
    Trim(Excerpt.ExcerptOf(content))
  }

  /** `pre("validate")`: an empty slug of a titled post is filled from the title; nothing else
      is written. */
  function ValidateHook(p: Post): (q: Post)
    ensures q == p.(slug := q.slug)
    ensures p.slug != "" || p.title == "" ==> q.slug == p.slug
    ensures p.slug == "" && p.title != "" ==> q.slug == Slug.GenerateSlug(p.title)
  {
    HookSlugIsGenerated(p.title);
    if p.slug == "" && p.title != "" then p.(slug := HookSlug(p.title)) else p
  }

  /** `pre("save")`: an empty slug is filled when the title was modified, and an empty excerpt
      is derived when the content was modified; nothing else is written. */
  function SaveHook(p: Post, titleModified: bool, contentModified: bool): (q: Post)
    ensures q == p.(slug := q.slug, excerpt := q.excerpt)
    ensures !(titleModified && p.slug == "") ==> q.slug == p.slug
    ensures titleModified && p.slug == "" ==> q.slug == Slug.GenerateSlug(p.title)
    ensures !(contentModified && p.excerpt == "") ==> q.excerpt == p.excerpt
    ensures contentModified && p.excerpt == "" ==> q.excerpt == Trim(Excerpt.ExcerptOf(p.content))
  {
    HookSlugIsGenerated(p.title);
    p.(slug := if titleModified && p.slug == "" then HookSlug(p.title) else p.slug,
       excerpt := if contentModified && p.excerpt == "" then HookExcerpt(p.content) else p.excerpt)
  }

  /** Neither hook overwrites a slug or an excerpt that is already set, so editing a titled post
      never changes its slug. */
  lemma HooksKeepSetFields(p: Post, titleModified: bool, contentModified: bool)
    ensures p.slug != "" ==> ValidateHook(p).slug == p.slug
    ensures p.slug != "" ==> SaveHook(p, titleModified, contentModified).slug == p.slug
    ensures p.excerpt != "" ==> SaveHook(p, titleModified, contentModified).excerpt == p.excerpt
  {
  }

  /** Running a hook a second time changes nothing: after the first run the slug is set
      (unless there is nothing to make it from), and likewise the excerpt. */
  lemma HooksIdempotent(p: Post, titleModified: bool, contentModified: bool)
    ensures ValidateHook(ValidateHook(p)) == ValidateHook(p)
    ensures SaveHook(SaveHook(p, titleModified, contentModified), titleModified, contentModified)
         == SaveHook(p, titleModified, contentModified)
  {
  }

  function CommentErrors(c: Comment, k: nat): seq<FieldError> {
    var at := "comments." + Numbers.DecimalString(k);
    RequiredString(at + ".author", c.author) + RequiredString(at + ".email", c.email)
      + RequiredString(at + ".content", c.content)
  }

  function CommentsErrors(cs: seq<Comment>, from: nat): seq<FieldError>
    decreases |cs|
  {
    if cs == [] then [] else CommentErrors(cs[0], from) + CommentsErrors(cs[1..], from + 1)
  }

  predicate CommentComplete(c: Comment) {
    c.author != "" && c.email != "" && c.content != ""
  }

  lemma {:induction false} CommentsErrorsEmpty(cs: seq<Comment>, from: nat)
    ensures CommentsErrors(cs, from) == [] <==> forall k :: 0 <= k < |cs| ==> CommentComplete(cs[k])
    decreases |cs|
  {
    if cs != [] {
      CommentsErrorsEmpty(cs[1..], from + 1);
      assert forall k :: 1 <= k < |cs| ==> cs[k] == cs[1..][k - 1];
    }
  }

  /** The schema's validators: `title`, `content`, `author` required, `category` required and one
      of `Categories`, and each embedded comment's `author`, `email`, `content` required. */
  function ValidationErrors(p: Post): seq<FieldError> {
    RequiredString("title", p.title)
      + RequiredString("content", p.content)
      + RequiredEnum("category", p.category, Categories)
      + RequiredString("author", p.author)
      + CommentsErrors(p.comments, 0)
  }

  /** What a post must satisfy to be stored. */
  predicate IsValidPost(p: Post) {
    p.title != "" && p.content != "" && p.category in Categories && p.author != ""
    && forall k :: 0 <= k < |p.comments| ==> CommentComplete(p.comments[k])
  }

  /** Validation passes exactly for valid posts. */
  lemma ValidationErrorsEmpty(p: Post)
    ensures ValidationErrors(p) == [] <==> IsValidPost(p)
  {
    CommentsErrorsEmpty(p.comments, 0);
  }

  /** The hooks never touch a validated path, so validity survives them. */
  lemma HooksKeepValid(p: Post, titleModified: bool, contentModified: bool)
    ensures IsValidPost(ValidateHook(p)) <==> IsValidPost(p)
    ensures IsValidPost(SaveHook(p, titleModified, contentModified)) <==> IsValidPost(p)
  {
  }

  /** A document while it is being saved: its paths are updated in place by the hooks. */
  class PostDocument {
    var title: string
    var slug: string
    var content: string
    var excerpt: string
    var category: string
    var author: string
    var tags: seq<string>
    var published: bool
    var publishedAt: int
    var createdAt: int
    var featuredImage: Option<Image>
    var comments: seq<Comment>

    function Snapshot(): Post
      reads this
    {
      Post(title, slug, content, excerpt, category, author, tags, published, publishedAt,
           createdAt, featuredImage, comments)
    }

    /** `new Post(data)`: setters and defaults applied. */
    constructor (data: PostData, now: int)
      ensures Snapshot() == Cast(data, now)
    {
      var p := Cast(data, now);
      title := p.title;
      slug := p.slug;
      content := p.content;
      excerpt := p.excerpt;
      category := p.category;
      author := p.author;
      tags := p.tags;
      published := p.published;
      publishedAt := p.publishedAt;
      createdAt := p.createdAt;
      featuredImage := p.featuredImage;
      comments := p.comments;
    }

    /** The `pre("validate")` hook. */
    method PreValidate()
      modifies this`slug
      ensures Snapshot() == ValidateHook(old(Snapshot()))
    {
      ghost var q := ValidateHook(Snapshot());
      if slug == "" && title != "" {
        slug := HookSlug(title);
      }
      assert slug == q.slug;
    }

    /** The `pre("save")` hook; the two flags are `isModified("title")` and
        `isModified("content")`. */
    method PreSave(titleModified: bool, contentModified: bool)
      modifies this`slug, this`excerpt
      ensures Snapshot() == SaveHook(old(Snapshot()), titleModified, contentModified)
    {
      ghost var q := SaveHook(Snapshot(), titleModified, contentModified);
      if titleModified && slug == "" {
        slug := HookSlug(title);
      }
      assert slug == q.slug;
      if contentModified && excerpt == "" {
        excerpt := HookExcerpt(content);
      }
      assert excerpt == q.excerpt;
    }
  }

  /** Outcome of saving a new document. */
  datatype SaveOutcome =
    | Saved(post: Post)
    | Rejected(errors: seq<FieldError>)    // a `ValidationError`
    | DuplicateSlug                        // the unique index on `slug` (store error code 11000)

  /** The post a successful `Post.create(data)` stores: cast, validate hook, then save hook with
      every set path counted as modified (a new document). */
  function Created(data: PostData, now: int): Post {
    SaveHook(ValidateHook(Cast(data, now)), true, true)
  }

  predicate SlugTaken(posts: seq<Post>, slug: string) {
    exists i | 0 <= i < |posts| :: posts[i].slug == slug
  }

  /** The posts collection, with its unique index on `slug`. */
  class PostStore {
    var posts: seq<Post>

    /** Every stored post passed validation and no two share a slug. */
    predicate Valid()
      reads this
    {
      (forall i :: 0 <= i < |posts| ==> IsValidPost(posts[i]))
      && forall i, j :: 0 <= i < j < |posts| ==> posts[i].slug != posts[j].slug
    }

    constructor ()
      ensures posts == [] && Valid()
    {
      posts := [];
    }

    /** `Post.create(data)`: build the document, run the validate hook, validate, run the save
        hook, then insert unless the slug is taken. */
    method Create(data: PostData, now: int) returns (r: SaveOutcome)
      requires Valid()
      modifies this
      ensures Valid()
      ensures r.Rejected? <==> !IsValidPost(Cast(data, now))
      ensures r.DuplicateSlug? <==> IsValidPost(Cast(data, now)) && SlugTaken(old(posts), Created(data, now).slug)
      ensures r.Saved? ==> r.post == Created(data, now) && posts == old(posts) + [r.post]
      ensures !r.Saved? ==> posts == old(posts)
    {
      var doc := new PostDocument(data, now);
      doc.PreValidate();
      HooksKeepValid(Cast(data, now), true, true);
      ValidationErrorsEmpty(doc.Snapshot());
      var errors := ValidationErrors(doc.Snapshot());
      if errors != [] {
        return Rejected(errors);
      }
      doc.PreSave(true, true);
      var p := doc.Snapshot();
      r := Insert(p);
    }

    /** Insertion under the unique index. */
    method Insert(p: Post) returns (r: SaveOutcome)
      requires Valid() && IsValidPost(p)
      modifies this
      ensures Valid()
      ensures r.DuplicateSlug? <==> SlugTaken(old(posts), p.slug)
      ensures r.Saved? <==> !SlugTaken(old(posts), p.slug)
      ensures r.Saved? ==> r.post == p && posts == old(posts) + [p]
      ensures !r.Saved? ==> posts == old(posts)
    {
      if exists i | 0 <= i < |posts| :: posts[i].slug == p.slug {
        return DuplicateSlug;
      }
      posts := posts + [p];
      r := Saved(p);
    }
  }
}
