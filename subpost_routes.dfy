/**
 * The subpost endpoints of the server: the name rule for new subposts, the
 * listings and the name search, lookup by name, and the rules that change the
 * `subscriptions` and `user_roles` tables.
 */
module SubpostRoutes {
  import opened Wrappers
  import opened JsValues
  import opened Sorting
  import RoleModels

  /* ---------- The name rule `^\w{3,}$` ---------- */

  /** Length of the longest prefix of `s` made of word characters. */
  function WordRun(s: string, isWord: char -> bool): (k: nat)
    ensures k <= |s|
    ensures forall i :: 0 <= i < k ==> isWord(s[i])
    ensures k < |s| ==> !isWord(s[k])
  {
    if s == [] || !isWord(s[0]) then 0 else 1 + WordRun(s[1..], isWord)
  }

  /**
   * `re.match(r"^\w{3,}$", name)`: a greedy run of at least three word characters,
   * then the end of the string or a final newline (Python's `$` also matches just
   * before a trailing "\n").
   */
  predicate NameMatches(name: string, isWord: char -> bool)
  {
    var k := WordRun(name, isWord);
    k >= 3 && (k == |name| || (k == |name| - 1 && name[k] == '\n'))
  }

  /** Every character of `s` is a word character. */
  predicate AllWord(s: string, isWord: char -> bool)
  {
    forall i :: 0 <= i < |s| ==> isWord(s[i])
  }

  /**
   * A name matches exactly when it is three or more word characters, possibly
   * followed by one newline (the newline is not a word character).
   */
  lemma NameMatchesIff(name: string, isWord: char -> bool)
    requires !isWord('\n')
    ensures NameMatches(name, isWord) <==>
      (|name| >= 3 && AllWord(name, isWord))
      || (|name| >= 4 && name[|name| - 1] == '\n' && AllWord(name[..|name| - 1], isWord))
  {
    var k := WordRun(name, isWord);
    if |name| >= 4 && name[|name| - 1] == '\n' && AllWord(name[..|name| - 1], isWord) {
      forall i | 0 <= i < |name| - 1
        ensures isWord(name[i])
      {
        assert name[..|name| - 1][i] == name[i];
      }
      assert k == |name| - 1;
    }
    if NameMatches(name, isWord) && k == |name| - 1 {
      assert forall i :: 0 <= i < |name| - 1 ==> name[..|name| - 1][i] == name[i];
    }
  }

  /** The name check of `new_post`: present, non-empty and matching. */
  predicate ValidPostName(name: Option<string>, isWord: char -> bool)
  {
    name.Some? && name.value != "" && NameMatches(name.value, isWord)
  }

  /* ---------- Listings ---------- */

  /** A `subpost_info` row; the counts may be null. */
  datatype SubpostInfo = SubpostInfo(id: int, name: string, membersCount: Option<int>, postsCount: Option<int>)

  /** A `subposts` row. */
  datatype Subpost = Subpost(id: int, name: string, createdBy: int)

  /** A `subscriptions` row. */
  datatype Subscription = Subscription(userId: int, subpostId: int)

  /** A `users` row. */
  datatype User = User(id: int, username: string)

  datatype Response = Response(message: string, code: int)

  /** `LIMIT limit OFFSET offset`: skip `offset` rows, then keep at most `limit`. */
  function LimitOffset<T>(rows: seq<T>, limit: nat, offset: nat): (r: seq<T>)
    ensures |r| <= limit
    ensures offset <= |rows| ==> |r| == if limit <= |rows| - offset then limit else |rows| - offset
    ensures offset > |rows| ==> r == []
    ensures forall k :: 0 <= k < |r| ==> r[k] == rows[offset + k]
  {
    if offset >= |rows| then []
    else rows[offset..if limit <= |rows| - offset then offset + limit else |rows|]
  }

  /** `limit` and `offset` of the listing request; a missing or non-integer argument takes its default. */
  function ListArgs(limit: Option<nat>, offset: Option<nat>): (r: (nat, nat))
    ensures limit.None? ==> r.0 == 10
    ensures offset.None? ==> r.1 == 0
    ensures limit.Some? ==> r.0 == limit.value
    ensures offset.Some? ==> r.1 == offset.value
  {
    (limit.GetOr(10), offset.GetOr(0))
  }

  /** `filter(...is_not(None))`: the rows whose count is present, in table order. */
  function Present(infos: seq<SubpostInfo>, count: SubpostInfo -> Option<int>): (r: seq<SubpostInfo>)
    ensures forall k :: 0 <= k < |r| ==> count(r[k]).Some?
    ensures forall x :: count(x).Some? ==> multiset(r)[x] == multiset(infos)[x]
    ensures forall x :: count(x).None? ==> multiset(r)[x] == 0
  {
    if infos == [] then []
    else
      assert infos == [infos[0]] + infos[1..];
      if count(infos[0]).Some? then [infos[0]] + Present(infos[1..], count)
      else Present(infos[1..], count)
  }

  function MembersCount(i: SubpostInfo): Option<int> { i.membersCount }
  function PostsCount(i: SubpostInfo): Option<int> { i.postsCount }
  function MembersKey(i: SubpostInfo): int { i.membersCount.GetOr(0) }
  function PostsKey(i: SubpostInfo): int { i.postsCount.GetOr(0) }

  /** The "all" listing: rows with a member count, most members first, then the window. */
  function AllListing(infos: seq<SubpostInfo>, limit: nat, offset: nat): seq<SubpostInfo>
  {
    LimitOffset(SortDesc(Present(infos, MembersCount), MembersKey), limit, offset)
  }

  /** The "popular" listing: rows with a post count, most posts first, then the window. */
  function PopularListing(infos: seq<SubpostInfo>, limit: nat, offset: nat): seq<SubpostInfo>
  {
    LimitOffset(SortDesc(Present(infos, PostsCount), PostsKey), limit, offset)
  }

  /** The user's subscriptions in table order, windowed; each stands for its subpost. */
  function SubscribedListing(subs: seq<Subscription>, userId: int, limit: nat, offset: nat): (r: seq<int>)
    ensures |r| <= limit
    ensures forall k :: 0 <= k < |r| ==> Subscription(userId, r[k]) in subs
    ensures |r| == |LimitOffset(OfUser(subs, userId), limit, offset)|
    ensures forall k :: 0 <= k < |r| ==> r[k] == OfUser(subs, userId)[offset + k].subpostId
  {
    var mine := OfUser(subs, userId);
    var w := LimitOffset(mine, limit, offset);
    assert forall k :: 0 <= k < |w| ==> w[k] in mine;
    seq(|w|, k requires 0 <= k < |w| => w[k].subpostId)
  }

  function OfUser(subs: seq<Subscription>, userId: int): (r: seq<Subscription>)
    ensures forall k :: 0 <= k < |r| ==> r[k].userId == userId
    ensures forall x :: x in r <==> x in subs && x.userId == userId
    ensures |r| <= |subs|
  {
    if subs == [] then []
    else if subs[0].userId == userId then [subs[0]] + OfUser(subs[1..], userId)
    else OfUser(subs[1..], userId)
  }

  /** With a window as large as the table, the listing names exactly the subposts the user is subscribed to. */
  lemma SubscribedListingComplete(subs: seq<Subscription>, userId: int)
    ensures forall t :: t in SubscribedListing(subs, userId, |subs|, 0) <==> Subscription(userId, t) in subs
  {
    var mine := OfUser(subs, userId);
    var r := SubscribedListing(subs, userId, |subs|, 0);
    forall t | Subscription(userId, t) in subs
      ensures t in r
    {
      var k :| 0 <= k < |mine| && mine[k] == Subscription(userId, t);
      assert r[k] == t;
    }
  }

  /** A window of a descending sequence is descending. */
  lemma WindowSorted<T>(rows: seq<T>, key: T -> int, limit: nat, offset: nat)
    requires SortedDesc(rows, key)
    ensures SortedDesc(LimitOffset(rows, limit, offset), key)
  {
  }

  /**
   * The "all" listing holds at most `limit` rows, each with a member count and
   * each one of the table's, in descending order of members.
   */
  lemma AllListingSpec(infos: seq<SubpostInfo>, limit: nat, offset: nat)
    ensures var r := AllListing(infos, limit, offset);
      |r| <= limit
      && (forall k :: 0 <= k < |r| ==> r[k].membersCount.Some? && r[k] in infos)
      && (forall i, j :: 0 <= i < j < |r| ==> r[i].membersCount.value >= r[j].membersCount.value)
  {
    var sorted := SortDesc(Present(infos, MembersCount), MembersKey);
    var r := AllListing(infos, limit, offset);
    WindowSorted(sorted, MembersKey, limit, offset);
    forall k | 0 <= k < |r|
      ensures r[k].membersCount.Some? && r[k] in infos
    {
      assert r[k] == sorted[offset + k];
      assert r[k] in multiset(sorted);
      assert multiset(infos)[r[k]] > 0;
    }
  }

  /** The same for the "popular" listing and post counts. */
  lemma PopularListingSpec(infos: seq<SubpostInfo>, limit: nat, offset: nat)
    ensures var r := PopularListing(infos, limit, offset);
      |r| <= limit
      && (forall k :: 0 <= k < |r| ==> r[k].postsCount.Some? && r[k] in infos)
      && (forall i, j :: 0 <= i < j < |r| ==> r[i].postsCount.value >= r[j].postsCount.value)
  {
    var sorted := SortDesc(Present(infos, PostsCount), PostsKey);
    var r := PopularListing(infos, limit, offset);
    WindowSorted(sorted, PostsKey, limit, offset);
    forall k | 0 <= k < |r|
      ensures r[k].postsCount.Some? && r[k] in infos
    {
      assert r[k] == sorted[offset + k];
      assert r[k] in multiset(sorted);
      assert multiset(infos)[r[k]] > 0;
    }
  }

  /** With no window, the "all" listing is every row with a member count, reordered. */
  lemma AllListingComplete(infos: seq<SubpostInfo>)
    ensures multiset(AllListing(infos, |infos|, 0)) == multiset(Present(infos, MembersCount))
  {
    var present := Present(infos, MembersCount);
    var sorted := SortDesc(present, MembersKey);
    assert |sorted| == |present| by {
      assert |multiset(sorted)| == |multiset(present)|;
    }
    PresentShorter(infos, MembersCount);
    WholeWindow(sorted, |infos|);
  }

  /** A window from the start at least as long as the rows holds all of them. */
  lemma WholeWindow<T>(rows: seq<T>, limit: nat)
    requires |rows| <= limit
    ensures LimitOffset(rows, limit, 0) == rows
  {
    if rows != [] {
      assert rows[0..|rows|] == rows;
    }
  }

  lemma {:induction false} PresentShorter(infos: seq<SubpostInfo>, count: SubpostInfo -> Option<int>)
    ensures |Present(infos, count)| <= |infos|
  {
    if infos != [] {
      PresentShorter(infos[1..], count);
    }
  }

  /* ---------- Search ---------- */

  /**
   * `ILIKE`: `%` matches any run of characters, `_` any one character, every
   * other pattern character itself up to ASCII case.
   */
  predicate Like(s: string, p: string)
    decreases |s| + |p|
  {
    if p == [] then s == []
    else if p[0] == '%' then Like(s, p[1..]) || (s != [] && Like(s[1..], p))
    else if s == [] then false
    else if p[0] == '_' then Like(s[1..], p[1..])
    else LowerChar(s[0]) == LowerChar(p[0]) && Like(s[1..], p[1..])
  }

  /** `q` has no wildcard character. */
  predicate Literal(q: string)
  {
    forall i :: 0 <= i < |q| ==> q[i] != '%' && q[i] != '_'
  }

  /** `s` starts with `q`, up to ASCII case. */
  predicate PrefixCI(s: string, q: string)
  {
    |q| <= |s| && forall i :: 0 <= i < |q| ==> LowerChar(s[i]) == LowerChar(q[i])
  }

  /** `q` occurs in `s`, up to ASCII case. */
  predicate ContainsCI(s: string, q: string)
  {
    exists i :: 0 <= i <= |s| - |q| && PrefixCI(s[i..], q)
  }

  lemma {:induction false} LikeAnything(s: string)
    ensures Like(s, "%")
  {
    if s != [] {
      LikeAnything(s[1..]);
    }
  }

  /** `q%` with a literal `q` matches exactly the strings that start with `q`. */
  lemma {:induction false} LikePrefix(s: string, q: string)
    requires Literal(q)
    ensures Like(s, q + "%") <==> PrefixCI(s, q)
    decreases |q|
  {
    if q == [] {
      assert q + "%" == "%";
      LikeAnything(s);
    } else {
      assert (q + "%")[1..] == q[1..] + "%";
      if s != [] {
        LikePrefix(s[1..], q[1..]);
        if PrefixCI(s, q) {
          assert PrefixCI(s[1..], q[1..]) by {
            forall i | 0 <= i < |q| - 1
              ensures LowerChar(s[1..][i]) == LowerChar(q[1..][i])
            {
              assert s[1..][i] == s[i + 1] && q[1..][i] == q[i + 1];
            }
          }
        }
        if LowerChar(s[0]) == LowerChar(q[0]) && PrefixCI(s[1..], q[1..]) {
          forall i | 0 <= i < |q|
            ensures LowerChar(s[i]) == LowerChar(q[i])
          {
            if i > 0 {
              assert s[1..][i - 1] == s[i] && q[1..][i - 1] == q[i];
            }
          }
        }
      }
    }
  }

  /** The search pattern `%q%` with a literal `q` matches exactly the names that contain `q`. */
  lemma {:induction false} LikeContains(s: string, q: string)
    requires Literal(q)
    ensures Like(s, "%" + q + "%") <==> ContainsCI(s, q)
    decreases |s|
  {
    var p := "%" + q + "%";
    assert p[1..] == q + "%";
    LikePrefix(s, q);
    assert s[0..] == s;
    if s == [] {
      if ContainsCI(s, q) {
        var i :| 0 <= i <= |s| - |q| && PrefixCI(s[i..], q);
      }
    } else {
      LikeContains(s[1..], q);
      if ContainsCI(s, q) && !PrefixCI(s, q) {
        var i :| 0 <= i <= |s| - |q| && PrefixCI(s[i..], q);
        assert i >= 1;
        assert s[i..] == s[1..][i - 1..];
      }
      if ContainsCI(s[1..], q) {
        var i :| 0 <= i <= |s[1..]| - |q| && PrefixCI(s[1..][i..], q);
        assert s[1..][i..] == s[i + 1..];
      }
    }
  }

  /** `subpost_search(name)`: the rows whose name matches `%name%`, in table order. */
  function Search(infos: seq<SubpostInfo>, name: string): (r: seq<SubpostInfo>)
    ensures forall x :: x in r <==> x in infos && Like(x.name, "%" + name + "%")
  {
    if infos == [] then []
    else if Like(infos[0].name, "%" + name + "%") then [infos[0]] + Search(infos[1..], name)
    else Search(infos[1..], name)
  }

  /** For a search text without wildcards, the search finds exactly the names containing it, ignoring case. */
  lemma SearchIsSubstring(infos: seq<SubpostInfo>, name: string, x: SubpostInfo)
    requires Literal(name)
    ensures x in Search(infos, name) <==> x in infos && ContainsCI(x.name, name)
  {
    LikeContains(x.name, name);
  }

  /* ---------- Lookup by name ---------- */

  function FirstInfoNamed(infos: seq<SubpostInfo>, name: string): (r: Option<SubpostInfo>)
    ensures r.Some? ==> r.value in infos && r.value.name == name
    ensures r.None? ==> forall x :: x in infos ==> x.name != name
  {
    if infos == [] then None
    else if infos[0].name == name then Some(infos[0])
    else FirstInfoNamed(infos[1..], name)
  }

  function FirstSubpostNamed(subposts: seq<Subpost>, name: string): (r: Option<Subpost>)
    ensures r.Some? ==> r.value in subposts && r.value.name == name
    ensures r.None? ==> forall x :: x in subposts ==> x.name != name
  {
    if subposts == [] then None
    else if subposts[0].name == name then Some(subposts[0])
    else FirstSubpostNamed(subposts[1..], name)
  }

  /** The outcome of a lookup: both rows, a 404, or a 500 from reading a field of `None`. */
  datatype Lookup = Found(info: SubpostInfo, subpost: Subpost) | NotFound | ServerError

  /**
   * `get_post_by_name` as written: the 404 guard is `not post_info and subpost`,
   * so a name with no rows at all reaches `post_info.as_dict()` on `None`.
   */
  function LookupAsWritten(infos: seq<SubpostInfo>, subposts: seq<Subpost>, name: string): Lookup
  {
    var info := FirstInfoNamed(infos, "t/" + name);
    var sub := FirstSubpostNamed(subposts, "t/" + name);
    if info.None? && sub.Some? then NotFound
    else if info.None? || sub.None? then ServerError
    else Found(info.value, sub.value)
  }

  /** An unknown name makes the lookup as written fail with a server error instead of a 404. */
  lemma UnknownNameCrashes(infos: seq<SubpostInfo>, subposts: seq<Subpost>, name: string)
    requires forall x :: x in infos ==> x.name != "t/" + name
    requires forall x :: x in subposts ==> x.name != "t/" + name
    ensures LookupAsWritten(infos, subposts, name) == ServerError
  {
  }

  /** `get_post_by_name` with the guard `not post_info or not subpost`. */
  function LookupByName(infos: seq<SubpostInfo>, subposts: seq<Subpost>, name: string): (r: Lookup)
    ensures r != ServerError
    ensures r == NotFound <==>
      (forall x :: x in infos ==> x.name != "t/" + name) || (forall x :: x in subposts ==> x.name != "t/" + name)
    ensures r.Found? ==> r.info in infos && r.subpost in subposts
    ensures r.Found? ==> r.info.name == "t/" + name && r.subpost.name == "t/" + name
  {
    var info := FirstInfoNamed(infos, "t/" + name);
    var sub := FirstSubpostNamed(subposts, "t/" + name);
    if info.None? || sub.None? then NotFound else Found(info.value, sub.value)
  }

  /** Where the lookup as written answers at all, it agrees with the corrected one. */
  lemma LookupAgrees(infos: seq<SubpostInfo>, subposts: seq<Subpost>, name: string)
    ensures LookupAsWritten(infos, subposts, name) != ServerError ==>
      LookupAsWritten(infos, subposts, name) == LookupByName(infos, subposts, name)
  {
  }

  /* ---------- The tables the endpoints change ---------- */

  /** The rows other than the (user, subpost) subscriptions. */
  function WithoutSubscription(subs: seq<Subscription>, userId: int, subpostId: int): (r: seq<Subscription>)
    ensures forall x :: x in r <==> x in subs && x != Subscription(userId, subpostId)
    ensures |r| <= |subs|
  {
    if subs == [] then []
    else if subs[0] == Subscription(userId, subpostId) then WithoutSubscription(subs[1..], userId, subpostId)
    else [subs[0]] + WithoutSubscription(subs[1..], userId, subpostId)
  }

  /** The `user_roles` rows other than those of the user in the subpost, whatever their role. */
  function WithoutRoles(rows: seq<RoleModels.UserRole>, userId: int, subpostId: int): (r: seq<RoleModels.UserRole>)
    ensures forall x :: x in r <==> x in rows && !(x.userId == userId && x.subpostId == Some(subpostId))
    ensures !RoleModels.HasMod(r, userId, subpostId)
  {
    if rows == [] then []
    else if rows[0].userId == userId && rows[0].subpostId == Some(subpostId) then WithoutRoles(rows[1..], userId, subpostId)
    else [rows[0]] + WithoutRoles(rows[1..], userId, subpostId)
  }

  /** Removing twice removes no more than removing once. */
  lemma {:induction false} WithoutRolesIdempotent(rows: seq<RoleModels.UserRole>, userId: int, subpostId: int)
    ensures WithoutRoles(WithoutRoles(rows, userId, subpostId), userId, subpostId) == WithoutRoles(rows, userId, subpostId)
  {
    if rows != [] {
      WithoutRolesIdempotent(rows[1..], userId, subpostId);
    }
  }

  function FirstUserNamed(users: seq<User>, username: string): (r: Option<User>)
    ensures r.Some? ==> r.value in users && r.value.username == username
    ensures r.None? ==> forall x :: x in users ==> x.username != username
  {
    if users == [] then None
    else if users[0].username == username then Some(users[0])
    else FirstUserNamed(users[1..], username)
  }

  function FirstSubpostWithId(subposts: seq<Subpost>, id: int): (r: Option<Subpost>)
    ensures r.Some? ==> r.value in subposts && r.value.id == id
    ensures r.None? ==> forall x :: x in subposts ==> x.id != id
  {
    if subposts == [] then None
    else if subposts[0].id == id then Some(subposts[0])
    else FirstSubpostWithId(subposts[1..], id)
  }

  /**
   * The tables the endpoints read and change. `users` and `subposts` are only
   * read here; `Subpost.add` is not part of this model, its outcome is an input.
   */
  class SubpostStore {
    var users: seq<User>
    var subposts: seq<Subpost>
    var subscriptions: seq<Subscription>
    const roles: RoleModels.RoleTable

    constructor (users: seq<User>, subposts: seq<Subpost>, subscriptions: seq<Subscription>, roles: RoleModels.RoleTable)
      ensures this.users == users && this.subposts == subposts && this.subscriptions == subscriptions && this.roles == roles
    {
      this.users := users;
      this.subposts := subposts;
      this.subscriptions := subscriptions;
      this.roles := roles;
    }

    /** `del_subscription(tid)`: 400 without a subscription; otherwise all of them go and the answer is 200. */
    method DelSubscription(userId: int, tid: int) returns (res: Response)
      modifies this
      ensures Subscription(userId, tid) !in old(subscriptions) ==>
        res == Response("Invalid Subscription", 400) && subscriptions == old(subscriptions)
      ensures Subscription(userId, tid) in old(subscriptions) ==>
        res == Response("UnSubscribed", 200) && subscriptions == WithoutSubscription(old(subscriptions), userId, tid)
      ensures Subscription(userId, tid) !in subscriptions
      ensures users == old(users) && subposts == old(subposts)
    {
      if Subscription(userId, tid) in subscriptions {
        subscriptions := WithoutSubscription(subscriptions, userId, tid);
        res := Response("UnSubscribed", 200);
      } else {
        res := Response("Invalid Subscription", 400);
      }
    }

    /**
     * `new_post`: 400 unless the name is present and matches; then `Subpost.add`
     * (whose new row's id is `created`, `None` when it fails) and, on success, the
     * creator becomes a moderator of the new subpost.
     */
    method NewPost(userId: int, name: Option<string>, isWord: char -> bool, created: Option<int>) returns (res: Response)
      modifies roles
      ensures !ValidPostName(name, isWord) ==> res == Response("Post name is required", 400) && roles.rows == old(roles.rows)
      ensures ValidPostName(name, isWord) && created.None? ==> res == Response("Something went wrong", 500) && roles.rows == old(roles.rows)
      ensures ValidPostName(name, isWord) && created.Some? ==>
        res == Response("Post has been created", 200)
        && roles.rows == RoleModels.AddModeratorRows(old(roles.rows), old(roles.nextId), userId, created.value)
        && RoleModels.HasMod(roles.rows, userId, created.value)
        && roles.nextId == old(roles.nextId) + (if RoleModels.HasMod(old(roles.rows), userId, created.value) then 0 else 1)
      ensures !ValidPostName(name, isWord) || created.None? ==> roles.nextId == old(roles.nextId)
    {
      if !ValidPostName(name, isWord) {
        return Response("Post name is required", 400);
      }
      if created.Some? {
        var _ := roles.AddModerator(userId, created.value);
        return Response("Post has been created", 200);
      }
      res := Response("Something went wrong", 500);
    }

    /**
     * `new_mod(tid, username)`: an unknown user is 400 "Invalid User"; otherwise
     * `add_moderator` runs and the answer is 200 even when it refused a duplicate.
     */
    method NewMod(tid: int, username: string) returns (res: Response)
      modifies roles
      ensures FirstUserNamed(users, username).None? ==> res == Response("Invalid User", 400) && roles.rows == old(roles.rows)
      ensures FirstUserNamed(users, username).Some? ==>
        res == Response("Moderator added", 200)
        && roles.rows == RoleModels.AddModeratorRows(old(roles.rows), old(roles.nextId), FirstUserNamed(users, username).value.id, tid)
        && roles.nextId
           == old(roles.nextId) + (if RoleModels.HasMod(old(roles.rows), FirstUserNamed(users, username).value.id, tid) then 0 else 1)
      ensures FirstUserNamed(users, username).None? ==> roles.nextId == old(roles.nextId)
    {
      var user := FirstUserNamed(users, username);
      if user.Some? {
        var _ := roles.AddModerator(user.value.id, tid);
        return Response("Moderator added", 200);
      }
      res := Response("Invalid User", 400);
    }

    /**
     * `delete_mod(tid, username)`: an unknown user or subpost is 400 "Invalid
     * User"; removing the subpost's creator is refused unless the actor is an
     * admin; otherwise every role row of that user in that subpost goes.
     */
    method DeleteMod(tid: int, username: string, actorIsAdmin: bool) returns (res: Response)
      modifies roles
      ensures var user := FirstUserNamed(users, username); var post := FirstSubpostWithId(subposts, tid);
        (user.None? || post.None? ==> res == Response("Invalid User", 400) && roles.rows == old(roles.rows))
        && (user.Some? && post.Some? && post.value.createdBy == user.value.id && !actorIsAdmin ==>
              res == Response("Cannot Remove Post Creator", 400) && roles.rows == old(roles.rows))
        && (user.Some? && post.Some? && (post.value.createdBy != user.value.id || actorIsAdmin) ==>
              res == Response("Moderator deleted", 200)
              && roles.rows == WithoutRoles(old(roles.rows), user.value.id, tid)
              && !RoleModels.HasMod(roles.rows, user.value.id, tid))
      ensures roles.nextId == old(roles.nextId)
    {
      var user := FirstUserNamed(users, username);
      var post := FirstSubpostWithId(subposts, tid);
      if user.Some? && post.Some? {
        if post.value.createdBy == user.value.id && !actorIsAdmin {
          return Response("Cannot Remove Post Creator", 400);
        }
        roles.rows := WithoutRoles(roles.rows, user.value.id, tid);
        return Response("Moderator deleted", 200);
      }
      res := Response("Invalid User", 400);
    }
  }

  /**
   * Removing a moderator takes away that user's roles in that subpost only:
   * other users' rows, and the user's rows in other subposts, stay.
   */
  lemma DeleteModRemovesOnlyTarget(rows: seq<RoleModels.UserRole>, userId: int, tid: int)
    ensures !RoleModels.HasMod(WithoutRoles(rows, userId, tid), userId, tid)
    ensures forall x :: x in rows && x.userId != userId ==> x in WithoutRoles(rows, userId, tid)
    ensures forall x :: x in rows && x.subpostId != Some(tid) ==> x in WithoutRoles(rows, userId, tid)
  {
  }
}
