/**
 * `InfinitePostsLayout` in the browser: post feeds loaded twenty at a time as the
 * reader scrolls, with sort and duration filters kept in the URL's query string.
 */
module InfinitePosts {
  import opened Wrappers
  import opened JsValues

  const PageSize: nat := 20

  /** The query string parameters, as `URLSearchParams` holds them (one value per key). */
  type Params = map<string, string>

  function Get(params: Params, key: string): (r: Option<string>)
    ensures r.Some? <==> key in params
    ensures r.Some? ==> r.value == params[key]
  {
    if key in params then Some(params[key]) else None
  }

  /** `searchParams.get("sortBy") || "top"`. */
  function SortBy(params: Params): (r: string)
    ensures "sortBy" in params && params["sortBy"] != "" ==> r == params["sortBy"]
    ensures "sortBy" !in params || params["sortBy"] == "" ==> r == "top"
  {
    OrDefault(Get(params, "sortBy"), "top")
  }

  /** `searchParams.get("duration") || "alltime"`. */
  function Duration(params: Params): (r: string)
    ensures "duration" in params && params["duration"] != "" ==> r == params["duration"]
    ensures "duration" !in params || params["duration"] == "" ==> r == "alltime"
  {
    OrDefault(Get(params, "duration"), "alltime")
  }

  /** The parameters of the posts request for one page. */
  datatype PageQuery = PageQuery(limit: nat, offset: nat, sortBy: string, duration: string)

  /** `queryFn` for page parameter `k`: twenty posts from offset `20 * k`. */
  function PageRequest(k: nat, params: Params): (q: PageQuery)
    ensures q.limit == PageSize && q.offset == PageSize * k
    ensures q.sortBy == SortBy(params) && q.duration == Duration(params)
  {
    PageQuery(PageSize, k * PageSize, SortBy(params), Duration(params))
  }

  /** `getNextPageParam`: a page shorter than twenty ends the feed; otherwise the next parameter is the page count. */
  function NextPageParam<T>(lastPage: seq<T>, pages: seq<seq<T>>): (r: Option<nat>)
    ensures r.None? <==> |lastPage| < PageSize
    ensures r.Some? ==> r.value == |pages|
  {
    if |lastPage| < PageSize then None else Some(|pages|)
  }

  /** The scroll handler fetches within two viewports of the bottom, when there is a next page and no fetch is running. */
  predicate ShouldFetch(scrollHeight: int, scrollTop: int, clientHeight: int, hasNextPage: bool, isFetching: bool)
  {
    scrollHeight - scrollTop <= clientHeight * 2 && hasNextPage && !isFetching
  }

  /** `data?.pages[0]?.length === 0`: only a loaded, empty first page counts as "no posts". */
  predicate NoPostsFound<T>(pages: Option<seq<seq<T>>>)
  {
    pages.Some? && |pages.value| > 0 && |pages.value[0]| == 0
  }

  /* ---------- The pages a feed accumulates ---------- */

  function Min(a: int, b: int): int { if a <= b then a else b }

  /** What a server holding `all` answers to a request with `offset` and `limit`. */
  function Window<T>(all: seq<T>, offset: nat, limit: nat): (r: seq<T>)
    ensures |r| == Min(limit, if offset <= |all| then |all| - offset else 0)
  {
    if offset >= |all| then [] else all[offset..Min(offset + limit, |all|)]
  }

  function Concat<T>(pages: seq<seq<T>>): seq<T>
  {
    if pages == [] then [] else Concat(pages[..|pages| - 1]) + pages[|pages| - 1]
  }

  /**
   * The pages held after the first fetch (parameter 0) and `n - 1` calls of
   * `fetchNextPage`, each asking for `NextPageParam` of what is loaded and doing
   * nothing once it is `None`.
   */
  function LoadPages<T>(all: seq<T>, n: nat): seq<seq<T>>
  {
    if n == 0 then []
    else
      var prev := LoadPages(all, n - 1);
      if prev == [] then [Window(all, 0, PageSize)]
      else
        match NextPageParam(prev[|prev| - 1], prev)
        case None => prev
        case Some(k) => prev + [Window(all, PageSize * k, PageSize)]
  }

  /** After the first fetch, the pages tile the front of the feed with full pages before the last. */
  ghost predicate Tiles<T>(all: seq<T>, pages: seq<seq<T>>)
  {
    && pages != []
    && Concat(pages) == all[..Min(PageSize * |pages|, |all|)]
    && (forall i :: 0 <= i < |pages| - 1 ==> |pages[i]| == PageSize)
    && (forall i :: 0 <= i < |pages| ==> |pages[i]| <= PageSize)
  }

  /**
   * The loaded pages tile the front of the feed: read in order they are exactly
   * its first `20 * pages` posts (or all of it), every page but the last is full,
   * and once there is no next page the whole feed is loaded.
   */
  lemma {:induction false} PagesTileFeed<T>(all: seq<T>, n: nat)
    ensures n > 0 ==> Tiles(all, LoadPages(all, n))
    ensures n > 0 && NextPageParam(LoadPages(all, n)[|LoadPages(all, n)| - 1], LoadPages(all, n)).None? ==>
      Concat(LoadPages(all, n)) == all
  {
    if n > 0 {
      var prev := LoadPages(all, n - 1);
      PagesTileFeed(all, n - 1);
      if prev == [] {
        FirstPageTiles(all);
      } else if NextPageParam(prev[|prev| - 1], prev).Some? {
        LastPageFull(all, prev);
        TileStep(all, prev);
      }
      var pages := LoadPages(all, n);
      if NextPageParam(pages[|pages| - 1], pages).None? {
        LastPageShort(all, pages);
      }
    }
  }

  lemma FirstPageTiles<T>(all: seq<T>)
    ensures Tiles(all, [Window(all, 0, PageSize)])
  {
    var pages := [Window(all, 0, PageSize)];
    assert pages[..0] == [];
    assert Concat(pages) == Window(all, 0, PageSize);
  }

  /** Appending the page at the next offset keeps the tiling. */
  lemma TileStep<T>(all: seq<T>, prev: seq<seq<T>>)
    requires Tiles(all, prev)
    requires |prev[|prev| - 1]| >= PageSize
    requires PageSize * |prev| <= |all|
    ensures Tiles(all, prev + [Window(all, PageSize * |prev|, PageSize)])
  {
    var m := |prev|;
    var w := Window(all, PageSize * m, PageSize);
    var pages := prev + [w];
    assert pages[..|pages| - 1] == prev;
    assert forall i :: 0 <= i < m ==> pages[i] == prev[i];
    assert Concat(pages) == Concat(prev) + w;
    assert all[..Min(PageSize * (m + 1), |all|)] == all[..PageSize * m] + w;
  }

  /** A full last page means the feed reaches past the pages loaded so far. */
  lemma LastPageFull<T>(all: seq<T>, pages: seq<seq<T>>)
    requires Tiles(all, pages)
    requires |pages[|pages| - 1]| >= PageSize
    ensures PageSize * |pages| <= |all|
  {
    var m := |pages|;
    ConcatLength(pages);
    assert |Concat(pages)| == PageSize * (m - 1) + |pages[m - 1]|;
  }

  /** A short last page means the feed ends inside it. */
  lemma LastPageShort<T>(all: seq<T>, pages: seq<seq<T>>)
    requires Tiles(all, pages)
    requires |pages[|pages| - 1]| < PageSize
    ensures Concat(pages) == all
  {
    var m := |pages|;
    ConcatLength(pages);
    assert |Concat(pages)| == PageSize * (m - 1) + |pages[m - 1]|;
    assert all[..|all|] == all;
  }

  /** Full pages before the last add up to twenty each. */
  lemma {:induction false} ConcatLength<T>(pages: seq<seq<T>>)
    requires pages != []
    requires forall i :: 0 <= i < |pages| - 1 ==> |pages[i]| == PageSize
    ensures |Concat(pages)| == PageSize * (|pages| - 1) + |pages[|pages| - 1]|
    decreases |pages|
  {
    var init := pages[..|pages| - 1];
    if |init| > 0 {
      ConcatLength(init);
      assert |init[|init| - 1]| == PageSize;
    } else {
      assert Concat(init) == [];
    }
  }

  /** `hasNextPage`: there are loaded pages and `getNextPageParam` of the last one is defined. */
  predicate HasNextPage<T>(pages: seq<seq<T>>)
  {
    pages != [] && NextPageParam(pages[|pages| - 1], pages).Some?
  }

  /** Every fetch after the first keeps the first page the server sent. */
  lemma {:induction false} FirstPageStays<T>(all: seq<T>, n: nat)
    requires n > 0
    ensures LoadPages(all, n) != [] && LoadPages(all, n)[0] == Window(all, 0, PageSize)
  {
    if n > 1 {
      FirstPageStays(all, n - 1);
    }
  }

  /** "No posts found" shows exactly when the first fetch is done and the feed is empty. */
  lemma NoPostsIffEmptyFeed<T>(all: seq<T>, n: nat)
    ensures NoPostsFound(Some(LoadPages(all, n))) <==> n > 0 && all == []
    ensures !NoPostsFound<T>(None)
  {
    if n > 0 {
      FirstPageStays(all, n);
    }
  }

  /**
   * A scroll that triggers a fetch finds a full last page and asks for the next
   * twenty posts, which extend the loaded front of the feed; once there is no
   * next page no scroll fetches, and the whole feed is loaded.
   */
  lemma ScrollFetch<T>(all: seq<T>, n: nat, scrollHeight: int, scrollTop: int, clientHeight: int, isFetching: bool)
    ensures var pages := LoadPages(all, n);
      ShouldFetch(scrollHeight, scrollTop, clientHeight, HasNextPage(pages), isFetching) ==>
        && !isFetching
        && |pages[|pages| - 1]| == PageSize
        && LoadPages(all, n + 1) == pages + [Window(all, PageSize * |pages|, PageSize)]
        && Concat(LoadPages(all, n + 1)) == all[..Min(PageSize * (|pages| + 1), |all|)]
    ensures var pages := LoadPages(all, n);
      pages != [] && !HasNextPage(pages) ==>
        && !ShouldFetch(scrollHeight, scrollTop, clientHeight, HasNextPage(pages), isFetching)
        && LoadPages(all, n + 1) == pages
        && Concat(pages) == all
  {
    var pages := LoadPages(all, n);
    if pages != [] {
      assert n > 0;
      PagesTileFeed(all, n);
      PagesTileFeed(all, n + 1);
    }
  }

  /* ---------- Filters ---------- */

  /** Which mobile select fired. */
  datatype SelectKind = SortBySelect | DurationSelect

  /** The `searchParams` object, changed in place by `.set` and then committed. */
  class SearchParams {
    var params: Params

    constructor (initial: Params)
      ensures params == initial
    {
      params := initial;
    }

    /** `handleDurationChange`: only `duration` changes. */
    method HandleDurationChange(d: string)
      modifies this
      ensures params == old(params)["duration" := d]
      ensures Get(params, "duration") == Some(d) && SortBy(params) == SortBy(old(params))
    {
      params := params["duration" := d];
    }

    /** `handleSortByChange`: only `sortBy` changes. */
    method HandleSortByChange(s: string)
      modifies this
      ensures params == old(params)["sortBy" := s]
      ensures Get(params, "sortBy") == Some(s) && Duration(params) == Duration(old(params))
    {
      params := params["sortBy" := s];
    }

    /** `handleSelectChange`: dispatch on which select fired. */
    method HandleSelectChange(value: string, kind: SelectKind)
      modifies this
      ensures kind == SortBySelect ==> params == old(params)["sortBy" := value]
      ensures kind == DurationSelect ==> params == old(params)["duration" := value]
    {
      if kind == SortBySelect {
        HandleSortByChange(value);
      } else {
        HandleDurationChange(value);
      }
    }
  }

  /* ---------- Labels ---------- */

  /** `pat` occurs in `s` starting at index `i`. */
  predicate OccursAt(s: string, pat: string, i: nat)
  {
    i + |pat| <= |s| && s[i..i + |pat|] == pat
  }

  /** `s.replace(pat, rep)` with a string pattern: only the first occurrence is replaced. */
  function ReplaceFirst(s: string, pat: string, rep: string): string
    requires |pat| > 0
    decreases |s|
  {
    if |s| < |pat| then s
    else if s[..|pat|] == pat then rep + s[|pat|..]
    else [s[0]] + ReplaceFirst(s[1..], pat, rep)
  }

  /** An occurrence in the tail is an occurrence one place later in the whole. */
  lemma OccursShift(s: string, pat: string, j: nat)
    requires |s| > 0
    ensures OccursAt(s[1..], pat, j) <==> OccursAt(s, pat, j + 1)
  {
    if j + 1 + |pat| <= |s| {
      assert s[1..][j..j + |pat|] == s[j + 1..j + 1 + |pat|];
    }
  }

  /** Where `pat` does not occur, nothing is replaced. */
  lemma {:induction false} ReplaceAbsent(s: string, pat: string, rep: string)
    requires |pat| > 0
    requires forall i: nat :: !OccursAt(s, pat, i)
    ensures ReplaceFirst(s, pat, rep) == s
    decreases |s|
  {
    if |s| >= |pat| {
      assert !OccursAt(s, pat, 0);
      forall i: nat
        ensures !OccursAt(s[1..], pat, i)
      {
        assert !OccursAt(s, pat, i + 1);
        OccursShift(s, pat, i);
      }
      ReplaceAbsent(s[1..], pat, rep);
      assert s == [s[0]] + s[1..];
    }
  }

  /** Where `pat` first occurs at `i`, that occurrence and no other is replaced. */
  lemma {:induction false} ReplaceFirstAt(s: string, pat: string, rep: string, i: nat)
    requires |pat| > 0
    requires OccursAt(s, pat, i)
    requires forall j: nat :: j < i ==> !OccursAt(s, pat, j)
    ensures ReplaceFirst(s, pat, rep) == s[..i] + rep + s[i + |pat|..]
    decreases i
  {
    if i == 0 {
      assert s[..|pat|] == pat;
    } else {
      assert !OccursAt(s, pat, 0);
      OccursShift(s, pat, i - 1);
      forall j: nat | j < i - 1
        ensures !OccursAt(s[1..], pat, j)
      {
        assert !OccursAt(s, pat, j + 1);
        OccursShift(s, pat, j);
      }
      ReplaceFirstAt(s[1..], pat, rep, i - 1);
      ReplaceAfterHead(s, pat, rep, i);
    }
  }

  /** The step of `ReplaceFirstAt`: the head is kept and the tail replaced from `i - 1`. */
  lemma ReplaceAfterHead(s: string, pat: string, rep: string, i: nat)
    requires |pat| > 0 && 0 < i && i + |pat| <= |s| && s[..|pat|] != pat
    requires ReplaceFirst(s[1..], pat, rep) == s[1..][..i - 1] + rep + s[1..][i - 1 + |pat|..]
    ensures ReplaceFirst(s, pat, rep) == s[..i] + rep + s[i + |pat|..]
  {
    assert ReplaceFirst(s, pat, rep) == [s[0]] + ReplaceFirst(s[1..], pat, rep);
    assert s[1..][..i - 1] == s[1..i];
    assert s[1..][i - 1 + |pat|..] == s[i + |pat|..];
    assert [s[0]] + s[1..i] == s[..i];
  }

  /** `d.charAt(0).toUpperCase() + d.slice(1)`: the first letter capitalised. */
  function Capitalize(d: string): (r: string)
    ensures |r| == |d|
    ensures |d| > 0 ==> r[0] == UpperChar(d[0]) && r[1..] == d[1..]
  {
    if d == [] then [] else [UpperChar(d[0])] + d[1..]
  }

  /** The desktop duration label: capitalised, with the first "time" after the first letter spaced out. */
  function DurationLabel(d: string): (r: string)
  {
    if d == [] then [] else [UpperChar(d[0])] + ReplaceFirst(d[1..], "time", " Time")
  }

  /** Without "time" after the first letter, the label is the capitalised value. */
  lemma DurationLabelPlain(d: string)
    requires d != []
    requires forall i: nat :: !OccursAt(d[1..], "time", i)
    ensures DurationLabel(d) == Capitalize(d)
  {
    ReplaceAbsent(d[1..], "time", " Time");
  }

  /** With the first "time" after the first letter at `i`, that one and no other gains a space and a capital. */
  lemma DurationLabelSpaced(d: string, i: nat)
    requires d != [] && OccursAt(d[1..], "time", i)
    requires forall j: nat :: j < i ==> !OccursAt(d[1..], "time", j)
    ensures DurationLabel(d) == Capitalize(d)[..i + 1] + " Time" + d[i + 5..]
  {
    var t := d[1..];
    var c := [UpperChar(d[0])];
    ReplaceFirstAt(t, "time", " Time", i);
    assert ReplaceFirst(t, "time", " Time") == t[..i] + " Time" + t[i + 4..];
    assert t[i + 4..] == d[i + 5..];
    assert Capitalize(d) == c + t;
    assert Capitalize(d)[..i + 1] == c + t[..i];
    calc {
      DurationLabel(d);
      c + ReplaceFirst(t, "time", " Time");
      c + (t[..i] + " Time" + d[i + 5..]);
      (c + t[..i]) + " Time" + d[i + 5..];
    }
  }

  /** The desktop labels of the four durations. */
  lemma DurationLabels()
    ensures DurationLabel("day") == "Day"
    ensures DurationLabel("week") == "Week"
    ensures DurationLabel("month") == "Month"
    ensures DurationLabel("alltime") == "All Time"
  {
    LabelMonth();
    LabelAllTime();
  }

  lemma LabelMonth()
    ensures DurationLabel("month") == "Month"
  {
    var t := "month"[1..];
    assert t == "onth";
    assert t[..4] != "time" by { assert t[..4][0] == 'o'; }
    assert ReplaceFirst(t, "time", " Time") == [t[0]] + ReplaceFirst(t[1..], "time", " Time");
  }

  lemma LabelAllTime()
    ensures DurationLabel("alltime") == "All Time"
  {
    var d := "alltime";
    assert d[1..][2..6] == "time";
    forall j: nat | j < 2
      ensures !OccursAt(d[1..], "time", j)
    {
      assert d[1..][j] == 'l';
    }
    DurationLabelSpaced(d, 2);
    assert Capitalize(d)[..3] == "All";
  }

}
