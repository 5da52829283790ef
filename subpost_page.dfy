/**
 * The subpost page of the browser: the cached `postData` of one subpost, the
 * Join/Leave toggle that flips its `has_subscribed` flag after the request
 * resolves, and the options select (moderator options, the mod list) whose
 * `handleChange` opens a modal or navigates.
 */
module SubPostPage {
  import opened Wrappers
  import opened JsValues
  import opened Numbers

  /** The cached `postData` (also the thread page's `threadData`). */
  datatype Community = Community(id: int, name: string, logo: Option<string>, description: Option<string>,
                                 subscriberCount: int, postsCount: int, commentsCount: int,
                                 hasSubscribed: bool, modList: seq<string>)

  /** The subscription request the toggle sends: its HTTP method and URL. */
  datatype Request = Delete(url: string) | Post(url: string)

  /** `/api/<section>/subscription/<id>`: the section is "posts" on the subpost page and "threads" on the thread page. */
  function SubscriptionUrl(section: string, id: int): string
  {
    "/api/" + section + "/subscription/" + IntToString(id)
  }

  /** The two pages never address the same URL, and a URL names one id. */
  lemma SubscriptionUrlInjective(section1: string, id1: int, section2: string, id2: int)
    requires section1 == "posts" || section1 == "threads"
    requires section2 == "posts" || section2 == "threads"
    requires SubscriptionUrl(section1, id1) == SubscriptionUrl(section2, id2)
    ensures section1 == section2 && id1 == id2
  {
    var u1, u2 := SubscriptionUrl(section1, id1), SubscriptionUrl(section2, id2);
    assert u1[5] == section1[0] && u2[5] == section2[0];
    var p := "/api/" + section1 + "/subscription/";
    assert u1 == p + IntToString(id1) && u2 == p + IntToString(id2);
    assert IntToString(id1) == u1[|p|..] == u2[|p|..] == IntToString(id2);
    ParseIntOfIntToString(id1);
    ParseIntOfIntToString(id2);
  }

  /** `{ ...old.postData, has_subscribed: flag }`. */
  function WithSubscribed(c: Community, flag: bool): (r: Community)
    ensures r.hasSubscribed == flag
    ensures r.(hasSubscribed := c.hasSubscribed) == c
  {
    c.(hasSubscribed := flag)
  }

  /**
   * The cache after a toggle clicked with flag `hasSubscribed`: unchanged without
   * data or when the request fails; otherwise the flag becomes its negation.
   */
  function AfterToggle(cache: Option<Community>, hasSubscribed: bool, ok: bool): (r: Option<Community>)
    ensures r.None? <==> cache.None?
    ensures cache.Some? && ok ==> r == Some(WithSubscribed(cache.value, !hasSubscribed))
    ensures !ok ==> r == cache
  {
    if cache.Some? && ok then Some(WithSubscribed(cache.value, !hasSubscribed)) else cache
  }

  /** Two successful toggles, each clicked with the flag then shown, restore the cache. */
  lemma ToggleTwiceRestores(c: Community)
    ensures AfterToggle(AfterToggle(Some(c), c.hasSubscribed, true), !c.hasSubscribed, true) == Some(c)
  {
  }

  /** A toggle clicked with the shown flag sends the matching request and shows the opposite flag. */
  lemma ToggleFlipsShownFlag(c: Community)
    ensures AfterToggle(Some(c), c.hasSubscribed, true).value.hasSubscribed == !c.hasSubscribed
    ensures AfterToggle(Some(c), c.hasSubscribed, true).value.(hasSubscribed := c.hasSubscribed) == c
  {
  }

  /** The query cache entry of one subpost or thread. */
  class CommunityCache {
    var data: Option<Community>

    constructor (data: Option<Community>)
      ensures this.data == data
    {
      this.data := data;
    }

    /**
     * The toggle's `mutationFn(hasSubscribed)` on the page of `section`: without
     * data nothing is sent; with it, DELETE when subscribed and POST otherwise,
     * and only after the request succeeds is the flag set to the opposite of
     * `hasSubscribed`.
     */
    method Toggle(section: string, hasSubscribed: bool, ok: bool) returns (sent: Option<Request>)
      modifies this
      ensures old(data).None? ==> sent.None?
      ensures old(data).Some? ==>
        sent == Some(if hasSubscribed then Delete(SubscriptionUrl(section, old(data).value.id))
                     else Post(SubscriptionUrl(section, old(data).value.id)))
      ensures data == AfterToggle(old(data), hasSubscribed, ok)
    {
      if data.None? {
        return None;
      }
      var url := SubscriptionUrl(section, data.value.id);
      sent := Some(if hasSubscribed then Delete(url) else Post(url));
      if ok {
        data := Some(WithSubscribed(data.value, !hasSubscribed));
      }
    }
  }

  /** `user.mod_in.includes(postData.id) || user.roles.includes("admin")`, for an authenticated viewer. */
  predicate ModOptionsShown(isAuthenticated: bool, user: AuthUser, c: Community)
  {
    isAuthenticated && (Num(c.id) in user.modIn || "admin" in user.roles)
  }

  /** The values of the options select. */
  function SelectOptions(isAuthenticated: bool, user: AuthUser, c: Community): (r: seq<string>)
    ensures ("edit" in r && "manage-mods" in r) <== ModOptionsShown(isAuthenticated, user, c)
    ensures !ModOptionsShown(isAuthenticated, user, c) ==> r == ["more"] + c.modList
    ensures |r| > |c.modList| && r[0] == "more" && r[|r| - |c.modList|..] == c.modList
  {
    ["more"] + (if ModOptionsShown(isAuthenticated, user, c) then ["edit", "manage-mods"] else []) + c.modList
  }

  /**
   * The moderator options are shown exactly when the select has two entries more
   * than the mod list, and then they are "edit" and "manage-mods" right after "more".
   */
  lemma ModOptionsIff(isAuthenticated: bool, user: AuthUser, c: Community)
    ensures ModOptionsShown(isAuthenticated, user, c) <==> |SelectOptions(isAuthenticated, user, c)| == |c.modList| + 3
    ensures ModOptionsShown(isAuthenticated, user, c) ==> SelectOptions(isAuthenticated, user, c)[1..3] == ["edit", "manage-mods"]
  {
  }

  /** A moderator listed by a string id is not matched: `includes` compares with `===`. */
  lemma StringIdIsNotMod(user: AuthUser, c: Community)
    requires Str(IntToString(c.id)) in user.modIn && Num(c.id) !in user.modIn && "admin" !in user.roles
    ensures !ModOptionsShown(true, user, c)
  {
  }

  /** The modal `handleChange` can open. */
  datatype Modal = NoModal | EditModal(info: Community) | ManageModsModal(mods: seq<string>, postId: int) | LogoModal(logo: Option<string>)

  /** The page's `modalData`, the select's shown value and its title. */
  class SubPostView {
    const postName: Option<string>
    const cache: CommunityCache
    var modal: Modal
    var selectValue: string
    var title: string

    /** Mounting sets the title to `t/<postName>`. */
    constructor (postName: Option<string>, cache: CommunityCache)
      ensures this.postName == postName && this.cache == cache
      ensures modal == NoModal && selectValue == "more" && title == Title(postName)
    {
      this.postName := postName;
      this.cache := cache;
      modal := NoModal;
      selectValue := "more";
      title := Title(postName);
    }

    /**
     * `handleChange(value)`: nothing without data; "more" opens nothing; "edit",
     * "manage-mods" and "logo" open their modal; any other value is a moderator's
     * name and navigates to `/u/<value>`. The select then shows "more" again.
     */
    method HandleChange(value: string) returns (navigateTo: Option<string>)
      modifies this
      ensures cache.data.None? ==> navigateTo.None? && modal == old(modal) && selectValue == old(selectValue)
      ensures cache.data.Some? ==> selectValue == "more"
      ensures cache.data.Some? && value == "more" ==> navigateTo.None? && modal == old(modal)
      ensures cache.data.Some? && value == "edit" ==> navigateTo.None? && modal == EditModal(cache.data.value)
      ensures cache.data.Some? && value == "manage-mods" ==>
        navigateTo.None? && modal == ManageModsModal(cache.data.value.modList, cache.data.value.id)
      ensures cache.data.Some? && value == "logo" ==> navigateTo.None? && modal == LogoModal(cache.data.value.logo)
      ensures cache.data.Some? && !(value in {"more", "edit", "manage-mods", "logo"}) ==>
        navigateTo == Some("/u/" + value) && modal == old(modal)
      ensures title == old(title)
    {
      navigateTo := None;
      if cache.data.None? {
        return;
      }
      var postData := cache.data.value;
      if value == "more" {
      } else if value == "edit" {
        modal := EditModal(postData);
      } else if value == "manage-mods" {
        modal := ManageModsModal(postData.modList, postData.id);
      } else if value == "logo" {
        modal := LogoModal(postData.logo);
      } else {
        navigateTo := Some("/u/" + value);
      }
      selectValue := "more";
    }

    /** Closing the modal. */
    method CloseModal()
      modifies this
      ensures modal == NoModal && selectValue == old(selectValue) && title == old(title)
    {
      modal := NoModal;
    }

    /** Leaving the page resets the title. */
    method Unmount()
      modifies this
      ensures title == "Postdit" && modal == old(modal) && selectValue == old(selectValue)
    {
      title := "Postdit";
    }
  }

  /** `"t/" + params.postName`; a missing name prints as `undefined`. */
  function Title(postName: Option<string>): (r: string)
    ensures postName.Some? ==> r == "t/" + postName.value
    ensures postName.None? ==> r == "t/undefined"
  {
    "t/" + OrUndefined(postName)
  }

  function OrUndefined(s: Option<string>): string
  {
    match s
    case Some(v) => v
    case None => "undefined"
  }

  /**
   * The query runs (`!!params.postName`) exactly when the title carries a real
   * name; with the query off the title is `t/` or `t/undefined`, which a
   * subpost named "undefined" also gets.
   */
  lemma GuardAndTitle(postName: Option<string>)
    ensures Present(postName) <==> postName.Some? && Title(postName) != "t/"
    ensures Present(postName) ==> Title(postName) == "t/" + postName.value && |Title(postName)| > 2
    ensures !Present(postName) ==> Title(postName) == "t/" || Title(postName) == "t/undefined"
    ensures Title(Some("undefined")) == Title(None) && Present(Some("undefined"))
  {
    if postName.Some? && Title(postName) == "t/" {
      assert postName.value == Title(postName)[2..];
    }
  }

  /** The Join/Leave button: shown to an authenticated viewer once data is there. */
  function ButtonLabel(isAuthenticated: bool, data: Option<Community>): (r: Option<string>)
    ensures r.Some? <==> isAuthenticated && data.Some?
    ensures r.Some? ==> (r.value == "Leave" <==> data.value.hasSubscribed)
    ensures r.Some? ==> (r.value == "Join" <==> !data.value.hasSubscribed)
  {
    if isAuthenticated && data.Some? then Some(if data.value.hasSubscribed then "Leave" else "Join") else None
  }

  /** After a successful toggle the button offers the opposite action. */
  lemma ButtonFlipsAfterToggle(c: Community)
    ensures ButtonLabel(true, AfterToggle(Some(c), c.hasSubscribed, true)) ==
      Some(if c.hasSubscribed then "Join" else "Leave")
  {
  }

  /** The description: longer than 90 characters gets "..." appended, but nothing is cut. */
  function DescriptionText(d: string): (r: string)
    ensures |r| >= |d| && r[..|d|] == d
    ensures |d| > 90 ==> r == d + "..."
    ensures |d| <= 90 ==> r == d
  {
    if |d| > 90 then d + "..." else d
  }
}
