/**
 * The `useComment` hook of the browser: the per-comment store behind every
 * rendered comment. It holds the comment's replies and its own record, sends the
 * reply, delete and edit requests, and after each request resolves updates its own
 * state or the page's cached root list. A module-level counter hands out the
 * border colours of nested reply lists.
 *
 * A request is an abstract outcome supplied by the caller: `Some(reply)` or `true`
 * when it resolved, `None` or `false` when it failed.
 */
module UseComment {
  import opened Wrappers
  import opened JsValues

  /* ---------- Records ---------- */

  datatype CommentInfo = CommentInfo(
    id: JsId,
    content: string,
    postId: Option<JsId>,
    parentId: Option<JsId>,
    hasParent: bool,
    isEdited: bool,
    createdAt: string,
    commentKarma: int)

  datatype UserInfo = UserInfo(id: JsId, username: string)

  datatype CurrentUser = CurrentUser(id: JsId, username: string, hasUpvoted: Option<bool>)

  datatype CommentData = CommentData(commentInfo: CommentInfo, userInfo: UserInfo, currentUser: CurrentUser)

  /** An entry of a `children` list: a comment and its own replies. */
  datatype Wrapper = Wrapper(comment: CommentData, children: seq<Wrapper>)

  /** The post record cached next to the comments; the browser only passes it on. */
  datatype PostInfo = PostInfo(subthreadId: string, title: string, content: string)

  /** The cached value of the `["post/comment", postId]` query. */
  datatype PostComments = PostComments(postInfo: PostInfo, commentInfo: seq<Wrapper>)

  /** The body of the reply request. */
  datatype ReplyRequest = ReplyRequest(postId: Option<string>, content: string, hasParent: bool, parentId: JsId)

  /** The body of the edit request sent to `/api/comments/<id>`. */
  datatype EditRequest = EditRequest(id: JsId, content: string)

  function IdOf(w: Wrapper): JsId { w.comment.commentInfo.id }

  /* ---------- The state updaters ---------- */

  /** The replies without the ones whose id is `x` (strict equality), in their order. */
  function WithoutChild(children: seq<Wrapper>, x: JsId): (r: seq<Wrapper>)
    ensures |r| <= |children|
    ensures forall w :: w in r <==> w in children && IdOf(w) != x
  {
    if children == [] then []
    else
      assert children == [children[0]] + children[1..];
      (if IdOf(children[0]) != x then [children[0]] else []) + WithoutChild(children[1..], x)
  }

  /** The root-list updater of a top-level delete: an absent cache stays absent. */
  function RootsWithout(cache: Option<PostComments>, x: JsId): (r: Option<PostComments>)
    ensures r.None? <==> cache.None?
    ensures r.Some? ==> r.value.postInfo == cache.value.postInfo
    ensures r.Some? ==> r.value.commentInfo == WithoutChild(cache.value.commentInfo, x)
  {
    match cache
    case None => None
    case Some(d) => Some(d.(commentInfo := WithoutChild(d.commentInfo, x)))
  }

  /** The record after an edit: the new content, marked edited, everything else kept. */
  function MergeEdit(d: CommentData, text: string): (r: CommentData)
    ensures r.commentInfo.content == text && r.commentInfo.isEdited
    ensures r.userInfo == d.userInfo && r.currentUser == d.currentUser
    ensures r.commentInfo.id == d.commentInfo.id && r.commentInfo.postId == d.commentInfo.postId
    ensures r.commentInfo.parentId == d.commentInfo.parentId && r.commentInfo.hasParent == d.commentInfo.hasParent
    ensures r.commentInfo.createdAt == d.commentInfo.createdAt && r.commentInfo.commentKarma == d.commentInfo.commentKarma
  {
    d.(commentInfo := d.commentInfo.(content := text, isEdited := true))
  }

  /** The id a delete request names: `childId || commentInfo.id`. */
  function DeleteTarget(childId: Option<JsId>, own: JsId): (r: JsId)
    ensures Truthy(childId) ==> r == childId.value
    ensures !Truthy(childId) ==> r == own
  {
    if Truthy(childId) then childId.value else own
  }

  /** The replies after a delete resolves: a truthy `childId` filters them, otherwise they stay. */
  function ChildrenAfterDelete(children: seq<Wrapper>, childId: Option<JsId>): (r: seq<Wrapper>)
    ensures !Truthy(childId) ==> r == children
    ensures Truthy(childId) ==> r == WithoutChild(children, childId.value)
  {
    if Truthy(childId) then WithoutChild(children, childId.value) else children
  }

  /** The cached root list after a delete resolves: filtered only for a falsy `childId`. */
  function RootsAfterDelete(cache: Option<PostComments>, childId: Option<JsId>, own: JsId): (r: Option<PostComments>)
    ensures Truthy(childId) ==> r == cache
    ensures !Truthy(childId) ==> r == RootsWithout(cache, own)
  {
    if Truthy(childId) then cache else RootsWithout(cache, own)
  }

  /* ---------- What the updaters promise ---------- */

  /** Filtering distributes over concatenation, so the kept replies keep their order. */
  lemma {:induction false} WithoutChildConcat(a: seq<Wrapper>, b: seq<Wrapper>, x: JsId)
    ensures WithoutChild(a + b, x) == WithoutChild(a, x) + WithoutChild(b, x)
    decreases |a|
  {
    if a == [] {
      assert a + b == b;
    } else {
      assert (a + b)[1..] == a[1..] + b;
      WithoutChildConcat(a[1..], b, x);
    }
  }

  /** Deleting an id no reply carries changes nothing. */
  lemma {:induction false} WithoutAbsent(children: seq<Wrapper>, x: JsId)
    requires forall w :: w in children ==> IdOf(w) != x
    ensures WithoutChild(children, x) == children
    decreases |children|
  {
    if children != [] {
      var tail := children[1..];
      assert children[0] in children;
      assert forall w :: w in tail ==> w in children;
      WithoutAbsent(tail, x);
      assert WithoutChild(children, x) == [children[0]] + WithoutChild(tail, x);
      assert children == [children[0]] + tail;
    }
  }

  /** Deleting the same id twice is deleting it once. */
  lemma WithoutIdempotent(children: seq<Wrapper>, x: JsId)
    ensures WithoutChild(WithoutChild(children, x), x) == WithoutChild(children, x)
  {
    WithoutAbsent(WithoutChild(children, x), x);
  }

  /** A reply appended after the others and then deleted by its fresh id leaves the list as it was. */
  lemma AppendThenDelete(children: seq<Wrapper>, w: Wrapper)
    requires forall c :: c in children ==> IdOf(c) != IdOf(w)
    ensures WithoutChild(children + [w], IdOf(w)) == children
  {
    WithoutChildConcat(children, [w], IdOf(w));
    WithoutAbsent(children, IdOf(w));
    assert WithoutChild([w], IdOf(w)) == [];
  }

  /** Deleting a root twice is deleting it once, and an absent cache stays absent. */
  lemma RootsWithoutIdempotent(cache: Option<PostComments>, x: JsId)
    ensures RootsWithout(RootsWithout(cache, x), x) == RootsWithout(cache, x)
  {
    if cache.Some? {
      WithoutIdempotent(cache.value.commentInfo, x);
    }
  }

  /** Editing twice with the same text is editing once. */
  lemma MergeEditIdempotent(d: CommentData, text: string)
    ensures MergeEdit(MergeEdit(d, text), text) == MergeEdit(d, text)
  {
  }

  /* ---------- The query cache and the store ---------- */

  /** The react-query cache entry for `["post/comment", postId]`, shared by the whole page. */
  class QueryCache {
    var postComments: Option<PostComments>

    constructor (initial: Option<PostComments>)
      ensures postComments == initial
    {
      postComments := initial;
    }
  }

  /** The state one rendered comment keeps through `useComment`. */
  class CommentStore {
    var commentChildren: seq<Wrapper>
    var data: CommentData
    const postId: Option<string>
    const cache: QueryCache

    /** `useState(children || [])` and `useState(comment)`. */
    constructor (children: Option<seq<Wrapper>>, comment: CommentData, postId: Option<string>, cache: QueryCache)
      ensures commentChildren == children.GetOr([]) && data == comment
      ensures this.postId == postId && this.cache == cache
    {
      commentChildren := children.GetOr([]);
      data := comment;
      this.postId := postId;
      this.cache := cache;
    }

    /**
     * `addComment(text)`: empty text sends nothing; otherwise the reply names this
     * comment as its parent, and once the server answers, its `new_comment` is
     * appended after the existing replies.
     */
    method AddComment(text: string, response: Option<Wrapper>) returns (sent: Option<ReplyRequest>)
      modifies this
      ensures |text| == 0 ==> sent.None? && commentChildren == old(commentChildren)
      ensures |text| > 0 ==> sent == Some(ReplyRequest(postId, text, true, data.commentInfo.id))
      ensures |text| > 0 && response.Some? ==> commentChildren == old(commentChildren) + [response.value]
      ensures |text| > 0 && response.None? ==> commentChildren == old(commentChildren)
      ensures data == old(data)
    {
      if |text| == 0 {
        return None;
      }
      sent := Some(ReplyRequest(postId, text, true, data.commentInfo.id));
      if response.Some? {
        commentChildren := commentChildren + [response.value];
      }
    }

    /**
     * `deleteComment(childId)`: the request names `childId || commentInfo.id`; once it
     * succeeds a truthy `childId` is filtered out of the replies, otherwise this
     * comment is filtered out of the cached root list. A failure changes nothing.
     */
    method DeleteComment(childId: Option<JsId>, ok: bool) returns (target: JsId)
      modifies this, cache
      ensures target == DeleteTarget(childId, data.commentInfo.id)
      ensures ok ==> commentChildren == ChildrenAfterDelete(old(commentChildren), childId)
      ensures ok ==> cache.postComments == RootsAfterDelete(old(cache.postComments), childId, data.commentInfo.id)
      ensures !ok ==> commentChildren == old(commentChildren) && cache.postComments == old(cache.postComments)
      ensures data == old(data)
    {
      target := DeleteTarget(childId, data.commentInfo.id);
      if ok {
        if Truthy(childId) {
          commentChildren := WithoutChild(commentChildren, childId.value);
        } else {
          cache.postComments := RootsWithout(cache.postComments, data.commentInfo.id);
        }
      }
    }

    /**
     * `updateComment(text)`: empty text sends nothing; otherwise the edit is sent and,
     * once it succeeds, merged into this comment's record.
     */
    method UpdateComment(text: string, ok: bool) returns (sent: Option<EditRequest>)
      modifies this
      ensures |text| == 0 ==> sent.None? && data == old(data)
      ensures |text| > 0 ==> sent == Some(EditRequest(old(data).commentInfo.id, text))
      ensures |text| > 0 && ok ==> data == MergeEdit(old(data), text)
      ensures |text| > 0 && !ok ==> data == old(data)
      ensures commentChildren == old(commentChildren)
    {
      if |text| == 0 {
        return None;
      }
      sent := Some(EditRequest(data.commentInfo.id, text));
      if ok {
        data := MergeEdit(data, text);
      }
    }
  }

  /* ---------- Border colours ---------- */

  const BorderColors: seq<string> := [
    "border-yellow-400", "border-blue-400", "border-purple-400",
    "border-green-400", "border-sky-400", "border-pink-400"]

  /** The index `colorSquence` reads at counter value `c`: the counter wraps at six. */
  function ColorIndex(c: int): (k: int)
    requires 0 <= c <= 6
    ensures 0 <= k < 6
  {
    if c >= |BorderColors| then 0 else c
  }

  /** The counter after `n` calls of `colorSquence` starting from the initial 0. */
  function CounterAfter(n: nat): (c: int)
    ensures 0 <= c <= 6
    ensures n > 0 ==> c >= 1
  {
    if n == 0 then 0 else (n - 1) % 6 + 1
  }

  /** Call number `n` (from 0) reads colour `n mod 6` and leaves the counter as after `n + 1` calls. */
  lemma ColorCycle(n: nat)
    ensures ColorIndex(CounterAfter(n)) == n % 6
    ensures ColorIndex(CounterAfter(n)) + 1 == CounterAfter(n + 1)
  {
    if n > 0 {
      var m := (n - 1) % 6;
      assert n - 1 == (n - 1) / 6 * 6 + m;
      if m == 5 {
        assert n == ((n - 1) / 6 + 1) * 6;
      } else {
        assert n == (n - 1) / 6 * 6 + (m + 1);
      }
    }
  }

  /** The module-level `curColor`, shared by every comment on the page. */
  class ColorCounter {
    var curColor: int

    ghost predicate Valid()
      reads this
    {
      0 <= curColor <= 6
    }

    constructor ()
      ensures Valid() && curColor == CounterAfter(0)
    {
      curColor := 0;
    }

    /** `colorSquence()`: wrap the counter at six, return its colour and step it. */
    method Next() returns (color: string)
      requires Valid()
      modifies this
      ensures Valid()
      ensures color == BorderColors[ColorIndex(old(curColor))] && color in BorderColors
      ensures curColor == ColorIndex(old(curColor)) + 1
    {
      if curColor >= |BorderColors| {
        curColor := 0;
      }
      color := BorderColors[curColor];
      curColor := curColor + 1;
    }
  }
}
