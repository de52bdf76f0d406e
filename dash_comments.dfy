/** The comment moderation panel of the dashboard (src/app/components/DashComments.jsx): the
    comments fetched from the server, the search and status filters over them, the pending and
    approved counts, and the local updates that follow a successful approve or delete. The
    server routes it calls are not part of this model; their replies are parameters. */
module DashComments {
  import opened Text
  import opened Sorting

  /** A comment as the panel receives it. Its text fields may be absent (`comment.content?.`). */
  datatype AdminComment = AdminComment(
    id: string,
    content: Option<string>,
    author: Option<string>,
    postTitle: Option<string>,
    postSlug: string,
    isApproved: bool)

  /** `field?.toLowerCase().includes(term.toLowerCase())`: false when the field is absent. */
  predicate FieldHas(field: Option<string>, term: string) {
    field.Some? && ContainsInsensitive(field.value, term)
  }

  predicate MatchesSearch(term: string, c: AdminComment) {
    FieldHas(c.content, term) || FieldHas(c.author, term) || FieldHas(c.postTitle, term)
  }

  predicate MatchesStatus(status: string, c: AdminComment) {
    status == "all" || (status == "approved" && c.isApproved) || (status == "pending" && !c.isApproved)
  }

  /** `filteredComments`. */
  function FilteredComments(comments: seq<AdminComment>, term: string, status: string): seq<AdminComment> {
    Filter(comments, c => MatchesSearch(term, c) && MatchesStatus(status, c))
  }

  function Pending(comments: seq<AdminComment>): seq<AdminComment> {
    Filter(comments, (c: AdminComment) => !c.isApproved)
  }

  function Approved(comments: seq<AdminComment>): seq<AdminComment> {
    Filter(comments, (c: AdminComment) => c.isApproved)
  }

  /** The status filter: "approved" keeps only approved comments, "pending" only the others,
      "all" lets every search match through, and any other value keeps nothing. */
  lemma StatusFilter(comments: seq<AdminComment>, term: string, status: string)
    ensures var r := FilteredComments(comments, term, status);
            && (status == "approved" ==> forall k :: 0 <= k < |r| ==> r[k].isApproved)
            && (status == "pending" ==> forall k :: 0 <= k < |r| ==> !r[k].isApproved)
            && (status !in {"all", "approved", "pending"} ==> r == [])
  {
    if status !in {"all", "approved", "pending"} {
      FilterNone(comments, c => MatchesSearch(term, c) && MatchesStatus(status, c));
    }
  }

  /** Every comment that passes both filters is shown, and nothing else. */
  lemma FilteredExactly(comments: seq<AdminComment>, term: string, status: string)
    ensures var r := FilteredComments(comments, term, status);
            && (forall k :: 0 <= k < |r| ==> MatchesSearch(term, r[k]) && MatchesStatus(status, r[k]) && r[k] in comments)
            && (forall k :: 0 <= k < |comments| && MatchesSearch(term, comments[k]) && MatchesStatus(status, comments[k]) ==>
                  comments[k] in r)
  {
    var keep := (c: AdminComment) => MatchesSearch(term, c) && MatchesStatus(status, c);
    var r := FilteredComments(comments, term, status);
    FilterKeeps(comments, keep);
    forall k | 0 <= k < |r| ensures r[k] in comments {
      assert r[k] in multiset(r);
    }
  }

  /** An empty search term matches every comment that has any of the three text fields; a
      comment with none of them is never shown. */
  lemma EmptyTermMatches(c: AdminComment)
    ensures MatchesSearch("", c) <==> c.content.Some? || c.author.Some? || c.postTitle.Some?
  {
    if c.content.Some? { ContainsEmpty(ToLower(c.content.value)); }
    if c.author.Some? { ContainsEmpty(ToLower(c.author.value)); }
    if c.postTitle.Some? { ContainsEmpty(ToLower(c.postTitle.value)); }
  }

  /** The pending and approved counts add up to the number of comments. */
  lemma CountsAddUp(comments: seq<AdminComment>)
    ensures |Pending(comments)| + |Approved(comments)| == |comments|
  {
    FilterSplit(comments, (c: AdminComment) => !c.isApproved, (c: AdminComment) => c.isApproved);
  }

  /** The local update after an approve: the comments with that id become approved. */
  function ApproveLocal(comments: seq<AdminComment>, id: string): (r: seq<AdminComment>)
    ensures |r| == |comments|
  {
    seq(|comments|, k requires 0 <= k < |comments| =>
      if comments[k].id == id then comments[k].(isApproved := true) else comments[k])
  }

  /** Approving changes nothing but the flag of the comments with that id: the list keeps its
      length and order, and approving again changes nothing. */
  lemma ApproveLocalFacts(comments: seq<AdminComment>, id: string)
    ensures var r := ApproveLocal(comments, id);
            && (forall k :: 0 <= k < |r| ==> r[k].(isApproved := comments[k].isApproved) == comments[k])
            && (forall k :: 0 <= k < |r| ==> (r[k].isApproved <==> comments[k].isApproved || comments[k].id == id))
            && ApproveLocal(r, id) == r
  {
  }

  /** After approving, the pending list is the old one without the comments of that id. */
  lemma {:induction false} ApproveLocalPending(comments: seq<AdminComment>, id: string)
    ensures Pending(ApproveLocal(comments, id)) == Filter(Pending(comments), (c: AdminComment) => c.id != id)
  {
    if comments != [] {
      ApproveLocalPending(comments[1..], id);
      ApproveLocalCons(comments, id);
    }
  }

  /** Approving works comment by comment: the head is approved or not on its own, and the
      pending list loses it exactly when it was pending and had that id. */
  lemma ApproveLocalCons(comments: seq<AdminComment>, id: string)
    requires comments != []
    requires Pending(ApproveLocal(comments[1..], id)) == Filter(Pending(comments[1..]), (c: AdminComment) => c.id != id)
    ensures Pending(ApproveLocal(comments, id)) == Filter(Pending(comments), (c: AdminComment) => c.id != id)
  {
    var r := ApproveLocal(comments, id);
    assert r == [r[0]] + ApproveLocal(comments[1..], id);
    var p := Pending(comments);
    if !comments[0].isApproved {
      assert p == [comments[0]] + Pending(comments[1..]);
    } else {
      assert p == Pending(comments[1..]);
    }
  }

  /** The local update after a delete: the comments with that id are dropped. */
  function DeleteLocal(comments: seq<AdminComment>, id: string): seq<AdminComment> {
    Filter(comments, (c: AdminComment) => c.id != id)
  }

  /** Deleting drops exactly the comments with that id and keeps every other one, in order. */
  lemma DeleteLocalFacts(comments: seq<AdminComment>, id: string)
    ensures var r := DeleteLocal(comments, id);
            && (forall k :: 0 <= k < |r| ==> r[k].id != id && r[k] in comments)
            && (forall k :: 0 <= k < |comments| && comments[k].id != id ==> comments[k] in r)
            && |r| + |Filter(comments, (c: AdminComment) => c.id == id)| == |comments|
  {
    var r := DeleteLocal(comments, id);
    FilterKeeps(comments, (c: AdminComment) => c.id != id);
    FilterSplit(comments, (c: AdminComment) => c.id != id, (c: AdminComment) => c.id == id);
    forall k | 0 <= k < |r| ensures r[k] in comments {
      assert r[k] in multiset(r);
    }
  }

  /** The comments request: a reply with `comments` (absent reads as none), a non-OK reply, or
      a failed request. */
  datatype CommentsFetch = CommentsLoaded(comments: Option<seq<AdminComment>>) | CommentsRejected | CommentsFailed

  class DashCommentsState {
    var comments: seq<AdminComment>
    var searchTerm: string
    var statusFilter: string
    var error: string

    constructor ()
      ensures comments == [] && searchTerm == "" && statusFilter == "all" && error == ""
    {
      comments := [];
      searchTerm := "";
      statusFilter := "all";
      error := "";
    }

    /** The comments shown. */
    function Visible(): seq<AdminComment>
      reads this
    {
      FilteredComments(comments, searchTerm, statusFilter)
    }

    /** `fetchAllComments`: the error is cleared first; a reply replaces the comments, a
        rejection or a failure sets its message and keeps them. */
    method CommentsFetched(result: CommentsFetch)
      modifies this`comments, this`error
      ensures result.CommentsLoaded? ==> comments == result.comments.GetOr([]) && error == ""
      ensures result.CommentsRejected? ==> comments == old(comments) && error == "Failed to load comments"
      ensures result.CommentsFailed? ==> comments == old(comments) && error == "Error loading comments. Please try again."
    {
      error := "";
      match result
      case CommentsLoaded(cs) => comments := cs.GetOr([]);
      case CommentsRejected => error := "Failed to load comments";
      case CommentsFailed => error := "Error loading comments. Please try again.";
    }

    /** `approveComment`: the local list changes only when the server said OK. */
    method Approve(id: string, ok: bool)
      modifies this`comments
      ensures comments == if ok then ApproveLocal(old(comments), id) else old(comments)
    {
      if ok {
        comments := ApproveLocal(comments, id);
      }
    }

    /** `deleteComment`: nothing happens unless the user confirms and the server says OK. */
    method Delete(id: string, confirmed: bool, ok: bool)
      modifies this`comments
      ensures comments == if confirmed && ok then DeleteLocal(old(comments), id) else old(comments)
    {
      if !confirmed {
        return;
      }
      if ok {
        comments := DeleteLocal(comments, id);
      }
    }
  }
}
