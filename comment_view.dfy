/**
 * The `Comment` component of the browser: who sees the options menu and the Edit
 * option, where a delete is routed, and the reply, edit and expand flags its
 * handlers flip. `CommentMode` is the text box shared by replies and edits.
 */
module CommentView {
  import opened Wrappers
  import opened JsValues
  import opened UseComment

  /** What the comment footer offers: the options menu, or only a Share button. */
  datatype Controls = Menu(options: seq<string>) | ShareButton

  /**
   * The footer controls: the menu for an authenticated viewer who wrote the comment,
   * moderates the thread or is an admin; Edit in it only for the author.
   */
  function FooterControls(isAuthenticated: bool, user: Option<AuthUser>, author: string, threadId: JsId): (r: Controls)
    ensures r.Menu? <==> isAuthenticated && user.Some?
                         && (user.value.username == author || threadId in user.value.modIn || "admin" in user.value.roles)
    ensures r.Menu? ==> ("edit" in r.options <==> user.value.username == author)
    ensures r.Menu? ==> "delete" in r.options && "share" in r.options && r.options[0] == "more"
  {
    if isAuthenticated && user.Some?
       && (user.value.username == author || threadId in user.value.modIn || "admin" in user.value.roles)
    then Menu(["more", "share"] + (if user.value.username == author then ["edit"] else []) + ["delete"])
    else ShareButton
  }

  /** A moderator or admin who did not write the comment may delete it but never edit it. */
  lemma ModeratorCannotEdit(user: AuthUser, author: string, threadId: JsId)
    requires user.username != author
    requires threadId in user.modIn || "admin" in user.roles
    ensures FooterControls(true, Some(user), author, threadId).Menu?
    ensures "delete" in FooterControls(true, Some(user), author, threadId).options
    ensures "edit" !in FooterControls(true, Some(user), author, threadId).options
  {
  }

  /** `CommentMode`'s initial text: `defaultValue || ""`. */
  function InitialContent(defaultValue: Option<string>): (r: string)
    ensures defaultValue.Some? ==> r == defaultValue.value
    ensures defaultValue.None? ==> r == ""
  {
    OrDefault(defaultValue, "")
  }

  /** The Hide/Show toggle is drawn invisible when the comment has no replies. */
  predicate ToggleVisible(children: seq<Wrapper>)
  {
    |children| > 0
  }

  /**
   * An added reply always makes the toggle visible; after a reply is deleted by
   * its id, the toggle stays visible exactly when a reply with another id is left.
   */
  lemma ToggleAfterReplyAndDelete(children: seq<Wrapper>, w: Wrapper, id: JsId)
    requires Truthy(Some(id))
    ensures ToggleVisible(children + [w])
    ensures ToggleVisible(ChildrenAfterDelete(children, Some(id))) <==> exists c :: c in children && IdOf(c) != id
  {
    var r := WithoutChild(children, id);
    if |r| > 0 {
      assert r[0] in r;
    }
  }

  function ToggleLabel(expandChildren: bool): (r: string)
    ensures r == "Hide" <==> expandChildren
    ensures r == "Show" <==> !expandChildren
  {
    if expandChildren then "Hide" else "Show"
  }

  /** One rendered comment: its store, the store of its parent (none at top level), and its flags. */
  class CommentWidget {
    const store: CommentStore
    const parentStore: CommentStore?
    var isReply: bool
    var editMode: bool
    var expandChildren: bool

    ghost predicate Valid()
      reads this
    {
      parentStore != store
    }

    /** The flags start closed, closed and expanded. */
    constructor (store: CommentStore, parentStore: CommentStore?)
      requires parentStore != store
      ensures Valid()
      ensures this.store == store && this.parentStore == parentStore
      ensures !isReply && !editMode && expandChildren
    {
      this.store := store;
      this.parentStore := parentStore;
      isReply := false;
      editMode := false;
      expandChildren := true;
    }

    /**
     * `handleSelect(value)`. "delete" hands this comment's id to the parent's
     * `deleteComment` when there is a parent, else to its own; "edit" opens edit
     * mode; anything else (including "share", whose clipboard copy is not modelled)
     * changes no state.
     */
    method HandleSelect(value: string, ok: bool) returns (target: Option<JsId>)
      requires Valid()
      modifies this, store, store.cache
      modifies if parentStore != null then {parentStore, parentStore.cache} else {}
      ensures value != "delete" ==> target.None?
      ensures editMode == (value == "edit" || old(editMode))
      ensures isReply == old(isReply) && expandChildren == old(expandChildren)
      ensures value == "delete" && parentStore != null ==>
        target == Some(DeleteTarget(Some(store.data.commentInfo.id), parentStore.data.commentInfo.id))
      ensures value == "delete" && parentStore == null ==>
        target == Some(DeleteTarget(Some(store.data.commentInfo.id), store.data.commentInfo.id))
      ensures value == "delete" && parentStore != null && ok ==>
        parentStore.commentChildren == ChildrenAfterDelete(old(parentStore.commentChildren), Some(store.data.commentInfo.id))
      ensures value == "delete" && parentStore == null && ok ==>
        store.commentChildren == ChildrenAfterDelete(old(store.commentChildren), Some(store.data.commentInfo.id))
        && store.cache.postComments
           == RootsAfterDelete(old(store.cache.postComments), Some(store.data.commentInfo.id), store.data.commentInfo.id)
      ensures value == "delete" && parentStore != null && ok ==>
        parentStore.cache.postComments
        == RootsAfterDelete(old(parentStore.cache.postComments), Some(store.data.commentInfo.id), parentStore.data.commentInfo.id)
      ensures value == "delete" && parentStore != null && ok && store.cache != parentStore.cache ==>
        store.cache.postComments == old(store.cache.postComments)
      ensures (value != "delete" || !ok) && parentStore != null ==>
        parentStore.commentChildren == old(parentStore.commentChildren)
        && parentStore.cache.postComments == old(parentStore.cache.postComments)
      ensures value != "delete" || !ok || parentStore != null ==> store.commentChildren == old(store.commentChildren)
      ensures value != "delete" || !ok ==> store.cache.postComments == old(store.cache.postComments)
      ensures store.data == old(store.data)
      ensures parentStore != null ==> parentStore.data == old(parentStore.data)
    {
      target := None;
      if value == "delete" {
        var id := store.data.commentInfo.id;
        var t;
        if parentStore != null {
          t := parentStore.DeleteComment(Some(id), ok);
        } else {
          t := store.DeleteComment(Some(id), ok);
        }
        target := Some(t);
      } else if value == "edit" {
        editMode := true;
      }
    }

    /** The Reply control flips the reply box only for an authenticated viewer. */
    method ToggleReply(isAuthenticated: bool)
      modifies this
      ensures isReply == (if isAuthenticated then !old(isReply) else old(isReply))
      ensures editMode == old(editMode) && expandChildren == old(expandChildren)
    {
      if isAuthenticated {
        isReply := !isReply;
      }
    }

    method ToggleExpand()
      modifies this
      ensures expandChildren == !old(expandChildren)
      ensures isReply == old(isReply) && editMode == old(editMode)
    {
      expandChildren := !expandChildren;
    }

    /**
     * Submitting the reply box: `CommentMode` passes the text on only for an
     * authenticated viewer; then the reply is added, the box closes and the
     * replies are shown.
     */
    method SubmitReply(text: string, isAuthenticated: bool, response: Option<Wrapper>) returns (sent: Option<ReplyRequest>)
      modifies this, store
      ensures !isAuthenticated ==> sent.None? && isReply == old(isReply) && expandChildren == old(expandChildren)
      ensures !isAuthenticated ==> store.commentChildren == old(store.commentChildren)
      ensures isAuthenticated ==> !isReply && expandChildren
      ensures isAuthenticated && |text| == 0 ==> sent.None?
      ensures isAuthenticated && |text| > 0 ==> sent == Some(ReplyRequest(store.postId, text, true, store.data.commentInfo.id))
      ensures isAuthenticated && |text| > 0 && response.Some? ==>
        store.commentChildren == old(store.commentChildren) + [response.value]
      ensures |text| == 0 || response.None? ==> store.commentChildren == old(store.commentChildren)
      ensures editMode == old(editMode) && store.data == old(store.data)
    {
      sent := None;
      if isAuthenticated {
        sent := store.AddComment(text, response);
        isReply := false;
        expandChildren := true;
      }
    }

    method CancelReply()
      modifies this
      ensures !isReply && editMode == old(editMode) && expandChildren == old(expandChildren)
    {
      isReply := false;
    }

    /** Submitting the edit box: for an authenticated viewer, the edit is sent and edit mode ends. */
    method SubmitEdit(text: string, isAuthenticated: bool, ok: bool) returns (sent: Option<EditRequest>)
      modifies this, store
      ensures !isAuthenticated ==> sent.None? && editMode == old(editMode) && store.data == old(store.data)
      ensures isAuthenticated ==> !editMode
      ensures isAuthenticated && |text| == 0 ==> sent.None?
      ensures isAuthenticated && |text| > 0 ==> sent == Some(EditRequest(old(store.data).commentInfo.id, text))
      ensures isAuthenticated && |text| > 0 && ok ==> store.data == MergeEdit(old(store.data), text)
      ensures |text| == 0 || !ok ==> store.data == old(store.data)
      ensures isReply == old(isReply) && expandChildren == old(expandChildren)
      ensures store.commentChildren == old(store.commentChildren)
    {
      sent := None;
      if isAuthenticated {
        sent := store.UpdateComment(text, ok);
        editMode := false;
      }
    }

    method CancelEdit()
      modifies this
      ensures !editMode && isReply == old(isReply) && expandChildren == old(expandChildren)
    {
      editMode := false;
    }

    /**
     * The class of the replies list: nothing while collapsed; with replies, a
     * border in the next colour of the shared counter; otherwise no border.
     */
    method ChildListClass(counter: ColorCounter) returns (cls: Option<string>)
      requires counter.Valid()
      modifies counter
      ensures counter.Valid()
      ensures !expandChildren ==> cls.None? && counter.curColor == old(counter.curColor)
      ensures expandChildren && |store.commentChildren| == 0 ==> cls == Some("") && counter.curColor == old(counter.curColor)
      ensures expandChildren && |store.commentChildren| > 0 ==>
        cls == Some("border-l-2 " + BorderColors[ColorIndex(old(counter.curColor))])
        && counter.curColor == ColorIndex(old(counter.curColor)) + 1
    {
      if !expandChildren {
        return None;
      }
      if |store.commentChildren| > 0 {
        var color := counter.Next();
        cls := Some("border-l-2 " + color);
      } else {
        cls := Some("");
      }
    }
  }

  /**
   * A top-level comment hands its own id to its own `deleteComment`; the id is
   * truthy, so the store takes the reply-filter branch and the page's cached
   * root list is left as it was.
   */
  lemma TopLevelDeleteKeepsRootList(cache: Option<PostComments>, children: seq<Wrapper>, id: JsId)
    requires Truthy(Some(id))
    ensures RootsAfterDelete(cache, Some(id), id) == cache
    ensures ChildrenAfterDelete(children, Some(id)) == WithoutChild(children, id)
    ensures DeleteTarget(Some(id), id) == id
  {
  }

  /**
   * A reply hands its id to its parent's `deleteComment`; the id is truthy, so the
   * parent's replies lose exactly the entries with that id and keep their order.
   */
  lemma ReplyDeleteFiltersParent(siblingsBefore: seq<Wrapper>, w: Wrapper, siblingsAfter: seq<Wrapper>)
    requires Truthy(Some(IdOf(w)))
    requires forall c :: c in siblingsBefore ==> IdOf(c) != IdOf(w)
    requires forall c :: c in siblingsAfter ==> IdOf(c) != IdOf(w)
    ensures ChildrenAfterDelete(siblingsBefore + [w] + siblingsAfter, Some(IdOf(w))) == siblingsBefore + siblingsAfter
  {
    var x := IdOf(w);
    var front := siblingsBefore + [w];
    WithoutChildConcat(front, siblingsAfter, x);
    AppendThenDelete(siblingsBefore, w);
    WithoutAbsent(siblingsAfter, x);
  }
}
