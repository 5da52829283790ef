/**
 * The navigation bar of the browser: the community search box (when it queries,
 * which results it lists, when it offers to create a community, what picking a
 * result hands back) and the mobile page select.
 */
module Navbar {
  import opened Wrappers
  import opened JsValues

  /** One search result as the server returns it. */
  datatype SearchResult = SearchResult(id: string, name: string, logo: Option<string>, subscriberCount: int)

  /** What the search box hands its caller: the bare name, or `{id, name}` in post mode. */
  datatype Picked = Name(name: string) | IdAndName(id: string, name: string)

  /** Side effects of the mobile select, in the order they happen. */
  datatype Effect = Logout | Navigate(path: string)

  /** `s.replace(/\s/g, "")`: every white-space character removed, the rest kept in order. */
  function StripWhitespace(s: string): (r: string)
    ensures |r| <= |s|
    ensures forall i :: 0 <= i < |r| ==> !IsWhitespace(r[i])
    ensures |r| == 0 <==> forall i :: 0 <= i < |s| ==> IsWhitespace(s[i])
  {
    if s == [] then []
    else if IsWhitespace(s[0]) then StripWhitespace(s[1..])
    else [s[0]] + StripWhitespace(s[1..])
  }

  /** The search query's `enabled` flag: non-empty, and non-empty once white space is removed. */
  predicate SearchEnabled(search: string)
  {
    |search| > 0 && |StripWhitespace(search)| > 0
  }

  /** The query runs exactly when the text holds a character that is not white space. */
  lemma SearchEnabledIff(search: string)
    ensures SearchEnabled(search) <==> exists i :: 0 <= i < |search| && !IsWhitespace(search[i])
  {
  }

  function Min(a: int, b: int): int { if a <= b then a else b }

  /**
   * The dropdown: nothing unless there is data and the search text is non-empty;
   * then the first five results, in the order returned.
   */
  function ShownResults(data: Option<seq<SearchResult>>, search: string): (r: Option<seq<SearchResult>>)
    ensures r.Some? <==> data.Some? && search != ""
    ensures r.Some? ==> |r.value| == Min(5, |data.value|)
    ensures r.Some? ==> r.value <= data.value
  {
    if data.Some? && search != "" then Some(data.value[..Min(5, |data.value|)]) else None
  }

  /** `readNames`: the names of the results, or none without data. */
  function Names(data: Option<seq<SearchResult>>): (r: seq<string>)
    ensures data.None? ==> r == []
    ensures data.Some? ==> |r| == |data.value| && forall i :: 0 <= i < |r| ==> r[i] == data.value[i].name
  {
    match data
    case None => []
    case Some(rs) => seq(|rs|, i requires 0 <= i < |rs| => rs[i].name)
  }

  /**
   * "Create subread" is drawn inside the dropdown when no result is named
   * `"t/" + search` and the box is not picking a community for a post.
   */
  predicate CreateOffered(data: Option<seq<SearchResult>>, search: string, forPost: bool)
  {
    ShownResults(data, search).Some? && ("t/" + search) !in Names(data) && !forPost
  }

  /** The offer shows iff the dropdown shows, no result (shown or not) has the name `t/<search>`, and not in post mode. */
  lemma CreateOfferedIff(data: Option<seq<SearchResult>>, search: string, forPost: bool)
    ensures CreateOffered(data, search, forPost) <==>
      data.Some? && search != "" && !forPost
      && forall k :: 0 <= k < |data.value| ==> data.value[k].name != "t/" + search
  {
    if data.Some? && ("t/" + search) in Names(data) {
      var k :| 0 <= k < |Names(data)| && Names(data)[k] == "t/" + search;
      assert data.value[k].name == "t/" + search;
    }
  }

  /** The `ReadSearch` box and its `search` text. */
  class ReadSearch {
    const forPost: bool
    var search: string

    constructor (forPost: bool)
      ensures this.forPost == forPost && search == ""
    {
      this.forPost := forPost;
      search := "";
    }

    /** Typing sets the text. */
    method Type(text: string)
      modifies this
      ensures search == text
    {
      search := text;
    }

    /** A click outside the box clears the text, which also closes the dropdown. */
    method ClickOutside(data: Option<seq<SearchResult>>)
      modifies this
      ensures search == ""
      ensures ShownResults(data, search).None?
    {
      search := "";
    }

    /** `handlereadClick`: hand the pick to the caller, then clear the text. */
    method PickResult(result: SearchResult) returns (picked: Picked)
      modifies this
      ensures forPost ==> picked == IdAndName(result.id, result.name)
      ensures !forPost ==> picked == Name(result.name)
      ensures picked.name == result.name
      ensures search == ""
    {
      picked := if forPost then IdAndName(result.id, result.name) else Name(result.name);
      search := "";
    }

    /**
     * `handleCreatereadClick`: go to the create page with the text as its `name`
     * parameter, then clear the text.
     */
    method CreateRead() returns (name: string)
      modifies this
      ensures name == old(search)
      ensures search == ""
    {
      name := search;
      search := "";
    }
  }

  /** The Home link: `/home` for a signed-in user, `/login` otherwise. */
  function HomeLink(isAuthenticated: bool): (r: string)
    ensures isAuthenticated <==> r == "/home"
    ensures !isAuthenticated <==> r == "/login"
  {
    if isAuthenticated then "/home" else "/login"
  }

  /** The values of the mobile select's options. */
  function MobileOptions(isAuthenticated: bool, username: string): (r: seq<string>)
    ensures "logout" in r <==> isAuthenticated
    ensures "/popular" in r && "/all" in r
  {
    (if isAuthenticated then ["/home"] else []) + ["/popular", "/all"]
    + (if isAuthenticated then ["/inbox", "/saved", "/u/" + username, "logout"] else ["/register", "/login"])
  }

  /** `handleMobileSelectChange`: `logout` logs out and then goes to `/all`; any other value is a path to go to. */
  function MobileSelect(value: string): (r: seq<Effect>)
    ensures Logout in r <==> value == "logout"
    ensures |r| > 0 && r[|r| - 1].Navigate?
    ensures value != "logout" ==> r == [Navigate(value)]
    ensures value == "logout" ==> r[|r| - 1] == Navigate("/all")
  {
    if value != "logout" then [Navigate(value)] else [Logout, Navigate("/all")]
  }

  /** Every option a signed-out user can pick only navigates, and to a path. */
  lemma SignedOutSelectNavigates(username: string, value: string)
    requires value in MobileOptions(false, username)
    ensures MobileSelect(value) == [Navigate(value)]
    ensures |value| > 0 && value[0] == '/'
  {
  }

  /** Every option of a signed-in user ends on a path: its own, or `/all` after logging out. */
  lemma SignedInSelectEndsOnPath(username: string, value: string)
    requires value in MobileOptions(true, username)
    ensures var p := MobileSelect(value)[|MobileSelect(value)| - 1].path; |p| > 0 && p[0] == '/'
  {
  }
}
