/**
 * The `FullPost` page of the browser: it loads a post with its comments into the
 * shared `["post/comment", postId]` cache entry and posts new top-level comments,
 * appending each one the server returns to the cached root list.
 */
module FullPost {
  import opened Wrappers
  import opened JsValues
  import opened UseComment

  /** The top-level comment request: no empty-text guard, no parent. */
  datatype NewCommentRequest = NewCommentRequest(postId: Option<string>, content: string)

  /** What the page draws for the state of its query. */
  datatype View = Loading | Failed | Loaded(showBox: bool, hasComments: bool)

  /** The `onSuccess` cache updater: append the new comment; nothing cached stays nothing. */
  function AppendRoot(cache: Option<PostComments>, c: Wrapper): (r: Option<PostComments>)
    ensures r.None? <==> cache.None?
    ensures r.Some? ==> r.value.postInfo == cache.value.postInfo
    ensures r.Some? ==> r.value.commentInfo == cache.value.commentInfo + [c]
  {
    match cache
    case None => None
    case Some(d) => Some(d.(commentInfo := d.commentInfo + [c]))
  }

  /** Appending a comment whose id is new and then deleting that id from the root list restores the cache. */
  lemma AppendRootThenDelete(cache: Option<PostComments>, c: Wrapper)
    requires cache.Some? ==> forall w :: w in cache.value.commentInfo ==> IdOf(w) != IdOf(c)
    ensures RootsWithout(AppendRoot(cache, c), IdOf(c)) == cache
  {
    if cache.Some? {
      AppendThenDelete(cache.value.commentInfo, c);
    }
  }

  /**
   * The page for the state of its query: a fetch in flight shows the loader, an
   * error or missing data the failure text; otherwise the comment box shows when
   * toggled for a signed-in user, and the list or the "no comments" text.
   */
  function PageView(isFetching: bool, isError: bool, data: Option<PostComments>,
                    commentMode: bool, isAuthenticated: bool, hasUser: bool): (v: View)
    ensures isFetching ==> v == Loading
    ensures !isFetching && (isError || data.None?) ==> v == Failed
    ensures v.Loaded? <==> !isFetching && !isError && data.Some?
    ensures v.Loaded? ==> (v.showBox <==> commentMode && isAuthenticated && hasUser)
    ensures v.Loaded? ==> (v.hasComments <==> |data.value.commentInfo| > 0)
  {
    if isFetching then Loading
    else if isError || data.None? then Failed
    else Loaded(commentMode && isAuthenticated && hasUser, |data.value.commentInfo| > 0)
  }

  class FullPostPage {
    const postId: Option<string>
    const cache: QueryCache
    var commentMode: bool

    constructor (postId: Option<string>, cache: QueryCache)
      ensures this.postId == postId && this.cache == cache && !commentMode
    {
      this.postId := postId;
      this.cache := cache;
      commentMode := false;
    }

    /** `setCommentMode`, handed to the post so that it can open the box. */
    method SetCommentMode(on: bool)
      modifies this
      ensures commentMode == on
    {
      commentMode := on;
    }

    /**
     * `newComment(content)`: the request is sent whatever the text; when the server
     * answers, its `new_comment` is appended to the cached root list and the box
     * closes; an error changes neither.
     */
    method NewComment(content: string, response: Option<Wrapper>) returns (sent: NewCommentRequest)
      modifies this, cache
      ensures sent == NewCommentRequest(postId, content)
      ensures response.Some? ==> cache.postComments == AppendRoot(old(cache.postComments), response.value) && !commentMode
      ensures response.None? ==> cache.postComments == old(cache.postComments) && commentMode == old(commentMode)
    {
      sent := NewCommentRequest(postId, content);
      if response.Some? {
        cache.postComments := AppendRoot(cache.postComments, response.value);
        commentMode := false;
      }
    }

    /** The box's Cancel closes it. */
    method Cancel()
      modifies this
      ensures !commentMode
    {
      commentMode := false;
    }
  }
}
