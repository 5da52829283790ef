/**
 * The saved-posts page of the browser runs the feed layout against stand-ins: a
 * mock `axios.get` that builds pages of a fixed list of 38 saved posts, and a mock
 * `useSearchParams` that keeps the query parameters in component state.
 */
module SavedPost {
  import opened Wrappers
  import opened Numbers
  import JsValues
  import InfinitePosts

  const TotalMockPosts: int := 38

  /** One mock saved post: the id and title the mock builds from its index. */
  datatype SavedItem = SavedItem(index: int, id: string, title: string)

  /** `${x}` of a value read with `params.get`: a missing value prints as `null`. */
  function Show(x: Option<string>): string
  {
    match x
    case Some(s) => s
    case None => "null"
  }

  /** The post at `postIndex`: id `saved<index>`, title number `index + 1`. */
  function Item(postIndex: int, linkUrl: Option<string>): SavedItem
  {
    SavedItem(postIndex, "saved" + IntToString(postIndex),
              "[SAVED] Post " + IntToString(postIndex + 1) + " from " + Show(linkUrl))
  }

  function Max(a: int, b: int): int { if a >= b then a else b }

  /** The number of posts a page holds: `limit` of them, but none at or past index 38. */
  function PageCount(offset: int, limit: int): (n: nat)
    ensures n <= Max(0, limit)
    ensures offset + n <= Max(offset, TotalMockPosts)
  {
    Max(0, InfinitePosts.Min(limit, TotalMockPosts - offset))
  }

  /** `f(offset)`, `f(offset + 1)`, ..., `n` values in all. */
  function Consecutive<T>(f: int -> T, offset: int, n: nat): (r: seq<T>)
    ensures |r| == n
  {
    if n == 0 then [] else Consecutive(f, offset, n - 1) + [f(offset + n - 1)]
  }

  /** The k-th of those values is `f(offset + k)`. */
  lemma {:induction false} ConsecutiveAt<T>(f: int -> T, offset: int, n: nat, k: nat)
    requires k < n
    ensures Consecutive(f, offset, n)[k] == f(offset + k)
  {
    if k < n - 1 {
      ConsecutiveAt(f, offset, n - 1, k);
    }
  }

  /** The mock's post builder for one `linkUrl`. */
  function ItemOf(linkUrl: Option<string>): int -> SavedItem
  {
    postIndex => Item(postIndex, linkUrl)
  }

  /** `n` values from `offset` followed by `m` values from `offset + n` are `n + m` values from `offset`. */
  lemma {:induction false} ConsecutiveSplit<T>(f: int -> T, offset: int, n: nat, m: nat)
    ensures Consecutive(f, offset, n) + Consecutive(f, offset + n, m) == Consecutive(f, offset, n + m)
  {
    if m > 0 {
      ConsecutiveSplit(f, offset, n, m - 1);
      assert offset + n + (m - 1) == offset + (n + m) - 1;
      assert Consecutive(f, offset, n) + (Consecutive(f, offset + n, m - 1) + [f(offset + n + (m - 1))])
        == (Consecutive(f, offset, n) + Consecutive(f, offset + n, m - 1)) + [f(offset + n + (m - 1))];
    }
  }

  /** The posts numbered `offset` to `offset + n - 1`, in order. */
  function Items(offset: int, n: nat, linkUrl: Option<string>): (r: seq<SavedItem>)
    ensures |r| == n
  {
    Consecutive(ItemOf(linkUrl), offset, n)
  }

  /** The page the mock answers: consecutive posts from `offset`, `PageCount` of them. */
  function MockPage(offset: int, limit: int, linkUrl: Option<string>): (r: seq<SavedItem>)
    ensures |r| == PageCount(offset, limit)
  {
    Items(offset, PageCount(offset, limit), linkUrl)
  }

  /** The k-th post of a page is the post at index `offset + k`. */
  lemma MockPageAt(offset: int, limit: int, linkUrl: Option<string>)
    ensures forall k :: 0 <= k < |MockPage(offset, limit, linkUrl)| ==>
      MockPage(offset, limit, linkUrl)[k] == Item(offset + k, linkUrl)
  {
    forall k | 0 <= k < PageCount(offset, limit)
      ensures MockPage(offset, limit, linkUrl)[k] == Item(offset + k, linkUrl)
    {
      ConsecutiveAt(ItemOf(linkUrl), offset, PageCount(offset, limit), k);
    }
  }

  /**
   * The mock `axios.get` once its delay is over: read `offset` (default 0) and
   * `limit` (default 20) with `parseInt(...) ||`, then collect the page.
   */
  method MockGet(offsetParam: Option<string>, limitParam: Option<string>, linkUrl: Option<string>)
    returns (posts: seq<SavedItem>)
    ensures posts == MockPage(ParseIntOr(offsetParam, 0), ParseIntOr(limitParam, 20), linkUrl)
  {
    var offset := ParseIntOr(offsetParam, 0);
    var limit := ParseIntOr(limitParam, 20);
    posts := CollectPage(offset, limit, linkUrl);
  }

  /** The mock's loop: push posts from `offset` on, stopping after `limit` posts or at the end of the list. */
  method CollectPage(offset: int, limit: int, linkUrl: Option<string>) returns (posts: seq<SavedItem>)
    ensures posts == MockPage(offset, limit, linkUrl)
  {
    var item := ItemOf(linkUrl);
    posts := [];
    var i := 0;
    while i < limit
      invariant 0 <= i
      invariant i == 0 || (i <= limit && offset + i <= TotalMockPosts)
      invariant posts == Consecutive(item, offset, i)
      decreases limit - i
    {
      var postIndex := offset + i;
      if postIndex >= TotalMockPosts {
        break;
      }
      posts := posts + [item(postIndex)];
      i := i + 1;
    }
    ExitCount(offset, limit, i);
  }

  /** The loop stops after `limit` posts or at index 38, having pushed `PageCount` posts. */
  lemma ExitCount(offset: int, limit: int, i: nat)
    requires i == 0 || (i <= limit && offset + i <= TotalMockPosts)
    requires i >= limit || offset + i >= TotalMockPosts
    ensures i == PageCount(offset, limit)
  {
  }

  /** A page has exactly `max(0, min(limit, 38 - offset))` posts, numbered from `offset`. */
  lemma PageShape(offset: int, limit: int, linkUrl: Option<string>)
    ensures |MockPage(offset, limit, linkUrl)| == Max(0, InfinitePosts.Min(limit, TotalMockPosts - offset))
    ensures forall k :: 0 <= k < |MockPage(offset, limit, linkUrl)| ==>
      MockPage(offset, limit, linkUrl)[k].index == offset + k
  {
    MockPageAt(offset, limit, linkUrl);
  }

  /** `parseInt("0") || 20` is 20: a zero limit asks for a full page. */
  lemma ZeroLimitIsDefault()
    ensures ParseIntOr(Some("0"), 20) == 20
    ensures ParseIntOr(None, 0) == 0
  {
    ParseIntOfIntToString(0);
    assert IntToString(0) == "0";
  }

  /** The request for page `k` as the layout writes it, read back by the mock: offset `20 * k`, limit 20. */
  lemma PageParamsRoundTrip(k: nat)
    ensures ParseIntOr(Some(IntToString(InfinitePosts.PageSize * k)), 0) == InfinitePosts.PageSize * k
    ensures ParseIntOr(Some(IntToString(InfinitePosts.PageSize)), 20) == InfinitePosts.PageSize
  {
    ParseIntOfIntToString(InfinitePosts.PageSize * k);
    ParseIntOfIntToString(InfinitePosts.PageSize);
  }

  /** Two pages that fit in the list, the second starting where the first ends, join into one page. */
  lemma MockPagesJoin(offset: int, n: nat, m: nat, linkUrl: Option<string>)
    requires offset + n + m <= TotalMockPosts
    ensures MockPage(offset, n, linkUrl) + MockPage(offset + n, m, linkUrl) == MockPage(offset, n + m, linkUrl)
  {
    assert PageCount(offset, n) == n && PageCount(offset + n, m) == m && PageCount(offset, n + m) == n + m;
    ConsecutiveSplit(ItemOf(linkUrl), offset, n, m);
  }

  /**
   * The saved feed: the first page holds 20 posts, so there is a next page; the
   * second holds the last 18, so the feed ends there.
   */
  lemma SavedFeedPages(linkUrl: Option<string>)
    ensures |MockPage(0, 20, linkUrl)| == 20 && |MockPage(20, 20, linkUrl)| == 18
    ensures InfinitePosts.NextPageParam(MockPage(0, 20, linkUrl), [MockPage(0, 20, linkUrl)]) == Some(1)
    ensures InfinitePosts.NextPageParam(MockPage(20, 20, linkUrl), [MockPage(0, 20, linkUrl), MockPage(20, 20, linkUrl)]).None?
    ensures MockPage(0, 20, linkUrl) + MockPage(20, 20, linkUrl) == MockPage(0, 38, linkUrl)
  {
    LastTwoPages(0, 20, linkUrl);
  }

  /** A full page followed by the short page that reaches the end of the list is everything from `offset` on. */
  lemma LastTwoPages(offset: int, limit: nat, linkUrl: Option<string>)
    requires offset + limit <= TotalMockPosts <= offset + 2 * limit
    ensures MockPage(offset, limit, linkUrl) + MockPage(offset + limit, limit, linkUrl)
      == MockPage(offset, TotalMockPosts - offset, linkUrl)
  {
    var rest: nat := TotalMockPosts - offset - limit;
    MockPagesJoin(offset, limit, rest, linkUrl);
    assert PageCount(offset + limit, limit) == rest == PageCount(offset + limit, rest);
    assert MockPage(offset + limit, limit, linkUrl) == Items(offset + limit, rest, linkUrl) == MockPage(offset + limit, rest, linkUrl);
    assert limit + rest == TotalMockPosts - offset;
  }

  /* ---------- The feed layout as the page copies it ---------- */

  /** `searchParams.get("sortBy") || "new"`: the copy's default sort differs from the feed's "top". */
  function SortBy(params: map<string, string>): (r: string)
    ensures "sortBy" in params && params["sortBy"] != "" ==> r == params["sortBy"]
    ensures "sortBy" !in params || params["sortBy"] == "" ==> r == "new"
  {
    JsValues.OrDefault(InfinitePosts.Get(params, "sortBy"), "new")
  }

  /** `["posts", apiQueryKey, sortBy, duration]`: the feed's cache entry. */
  function QueryKey(apiQueryKey: string, params: map<string, string>): seq<string>
  {
    ["posts", apiQueryKey, SortBy(params), InfinitePosts.Duration(params)]
  }

  /**
   * The refetch effect: it runs on mount (`before` is `None`) and whenever the
   * sort or the duration read from the parameters changes (`refetch` and
   * `forSaved` do not change), and calls `refetch` only outside the saved page.
   */
  predicate EffectRefetches(forSaved: bool, before: Option<map<string, string>>, after: map<string, string>)
  {
    && !forSaved
    && (before.None? || SortBy(before.value) != SortBy(after) || InfinitePosts.Duration(before.value) != InfinitePosts.Duration(after))
  }

  /**
   * Setting a filter to a new non-empty value moves the feed to a new cache entry
   * on every page, and refetches through the effect only outside the saved page;
   * setting it to the value already read changes neither.
   */
  lemma FilterChangeRefetch(forSaved: bool, apiQueryKey: string, params: map<string, string>, key: string, value: string)
    requires key == "sortBy" || key == "duration"
    requires value != ""
    ensures var current := if key == "sortBy" then SortBy(params) else InfinitePosts.Duration(params);
      && (value != current ==>
            QueryKey(apiQueryKey, params[key := value]) != QueryKey(apiQueryKey, params)
            && (EffectRefetches(forSaved, Some(params), params[key := value]) <==> !forSaved))
      && (value == current ==>
            QueryKey(apiQueryKey, params[key := value]) == QueryKey(apiQueryKey, params)
            && !EffectRefetches(forSaved, Some(params), params[key := value]))
    ensures EffectRefetches(forSaved, None, params) <==> !forSaved
  {
    var after := params[key := value];
    if key == "sortBy" {
      assert InfinitePosts.Duration(after) == InfinitePosts.Duration(params);
      assert QueryKey(apiQueryKey, after)[2] == value;
    } else {
      assert SortBy(after) == SortBy(params);
      assert QueryKey(apiQueryKey, after)[3] == value;
    }
  }

  /* ---------- The mock `useSearchParams` ---------- */

  const InitialParams: map<string, string> := map["sortBy" := "new", "duration" := "alltime"]

  /** `{ ...prev, ...Object.fromEntries(next) }`: the new entries win, the others stay. */
  function Merge(prev: map<string, string>, next: map<string, string>): (r: map<string, string>)
    ensures forall k :: k in r <==> k in prev || k in next
    ensures forall k :: k in next ==> r[k] == next[k]
    ensures forall k :: k in prev && k !in next ==> r[k] == prev[k]
  {
    prev + next
  }

  /** Committing the same entries twice is committing them once. */
  lemma MergeIdempotent(prev: map<string, string>, next: map<string, string>)
    ensures Merge(Merge(prev, next), next) == Merge(prev, next)
  {
    assert forall k :: k in Merge(Merge(prev, next), next) <==> k in Merge(prev, next);
  }

  /**
   * The mock hook: `params` is the component state; `urlParams` is the `Map` copy
   * handed out as `searchParams`, changed in place by `set` and rebuilt from
   * `params` after each commit.
   */
  class MockSearchParams {
    var params: map<string, string>
    var urlParams: map<string, string>

    constructor ()
      ensures params == InitialParams && urlParams == InitialParams
    {
      params := InitialParams;
      urlParams := InitialParams;
    }

    /** `searchParams.get(key)`. */
    function Get(key: string): (r: Option<string>)
      reads this
      ensures r.Some? <==> key in urlParams
      ensures r.Some? ==> r.value == urlParams[key]
    {
      if key in urlParams then Some(urlParams[key]) else None
    }

    /** `searchParams.set(key, value)`: changes only the copy. */
    method Set(key: string, value: string)
      modifies this
      ensures urlParams == old(urlParams)[key := value]
      ensures params == old(params)
    {
      urlParams := urlParams[key := value];
    }

    /** `setSearchParams(searchParams)`: merge the copy's entries into the state, then rebuild the copy. */
    method Commit()
      modifies this
      ensures params == Merge(old(params), old(urlParams))
      ensures urlParams == params
    {
      params := Merge(params, urlParams);
      urlParams := params;
    }
  }
}
