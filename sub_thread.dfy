/**
 * The thread page of the browser: the same subscription toggle over the cached
 * `threadData`, the query guard and the document title.
 */
module SubThreadPage {
  import opened Wrappers
  import opened JsValues
  import SubPostPage

  /** The thread page: its cache entry and the title its effect keeps. */
  class SubThreadView {
    const threadName: Option<string>
    const cache: SubPostPage.CommunityCache
    var title: string

    /** Mounting sets the title to `t/<threadName>`. */
    constructor (threadName: Option<string>, cache: SubPostPage.CommunityCache)
      ensures this.threadName == threadName && this.cache == cache
      ensures title == SubPostPage.Title(threadName)
    {
      this.threadName := threadName;
      this.cache := cache;
      title := SubPostPage.Title(threadName);
    }

    /**
     * The thread's toggle: DELETE or POST on `/api/threads/subscription/<id>`,
     * then, on success, only `has_subscribed` of the cached `threadData` changes.
     */
    method Toggle(hasSubscribed: bool, ok: bool) returns (sent: Option<SubPostPage.Request>)
      modifies cache
      ensures old(cache.data).None? ==> sent.None? && cache.data.None?
      ensures old(cache.data).Some? ==>
        sent == Some(if hasSubscribed then SubPostPage.Delete(ThreadUrl(old(cache.data).value.id))
                     else SubPostPage.Post(ThreadUrl(old(cache.data).value.id)))
      ensures cache.data == SubPostPage.AfterToggle(old(cache.data), hasSubscribed, ok)
      ensures title == old(title)
    {
      sent := cache.Toggle("threads", hasSubscribed, ok);
    }

    /** Leaving the page resets the title. */
    method Unmount()
      modifies this
      ensures title == "Threaddit" && cache.data == old(cache.data)
    {
      title := "Threaddit";
    }
  }

  /** The thread's subscription URL. */
  function ThreadUrl(id: int): string
  {
    SubPostPage.SubscriptionUrl("threads", id)
  }

  /**
   * The thread page never addresses a subpost's subscription, and its title
   * carries the thread's name exactly when the thread query (`!!params.threadName`) runs.
   */
  lemma ThreadUrlAndTitle(threadName: Option<string>, threadId: int, postId: int)
    ensures ThreadUrl(threadId) != SubPostPage.SubscriptionUrl("posts", postId)
    ensures Present(threadName) ==> SubPostPage.Title(threadName) == "t/" + threadName.value
    ensures !Present(threadName) ==> SubPostPage.Title(threadName) == "t/" || SubPostPage.Title(threadName) == "t/undefined"
  {
    if ThreadUrl(threadId) == SubPostPage.SubscriptionUrl("posts", postId) {
      SubPostPage.SubscriptionUrlInjective("threads", threadId, "posts", postId);
    }
    SubPostPage.GuardAndTitle(threadName);
  }
}
