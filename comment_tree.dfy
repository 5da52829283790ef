/**
 * The server's `create_comment_tree`: a flat list of comment rows, in query order,
 * becomes the forest of `{"comment", "children"}` nodes the API returns.
 *
 * The source builds one node object per row, records it in a dictionary under the
 * row's `comment_id`, and appends it either to the root list or to the `children`
 * list of the node the dictionary holds for its `parent_id`. Because the lists hold
 * shared node objects, a reply appended later still shows up under a parent that was
 * attached earlier. The method below keeps that heap as an arena: a node is named by
 * the index of its row, `dict` maps ids to indices, and `arena[j]` is node j's
 * `children` list, appended to in place. The returned forest is the arena read out
 * from the roots.
 */
module CommentTree {
  import opened Wrappers

  /** A comment row: the fields the builder reads; `payload` stands for `as_dict(cur_user)`. */
  datatype Comment = Comment(commentId: int, hasParent: bool, parentId: int, payload: string)

  /** A node of the returned forest: the row's payload and its replies, in input order. */
  datatype Node = Node(comment: Comment, children: seq<Node>)

  /* ---------- Specification: where each row ends up ---------- */

  /** The dictionary entry for `id` once rows `0 .. n-1` are in: the latest of them with that id. */
  function LastIndexBefore(cs: seq<Comment>, id: int, n: nat): (r: Option<nat>)
    requires n <= |cs|
    ensures r.Some? ==> r.value < n && cs[r.value].commentId == id
    ensures r.Some? ==> forall k :: r.value < k < n ==> cs[k].commentId != id
    ensures r.None? ==> forall k :: 0 <= k < n ==> cs[k].commentId != id
  {
    if n == 0 then None
    else if cs[n - 1].commentId == id then Some(n - 1)
    else LastIndexBefore(cs, id, n - 1)
  }

  /**
   * The node row `i` is appended to: none for a top-level row, otherwise the latest
   * row at or before `i` carrying its `parent_id` (the row's own entry is already in
   * the dictionary when its parent is looked up), or none when there is no such row.
   */
  function ParentOf(cs: seq<Comment>, i: nat): (r: Option<nat>)
    requires i < |cs|
    ensures r.Some? ==> cs[i].hasParent && r.value <= i && cs[r.value].commentId == cs[i].parentId
  {
    if cs[i].hasParent then LastIndexBefore(cs, cs[i].parentId, i + 1) else None
  }

  /** The parent is the latest row up to `i` with the wanted id; without one, no such row exists. */
  lemma ParentOfLatest(cs: seq<Comment>, i: nat)
    requires i < |cs|
    ensures ParentOf(cs, i).Some? ==> forall k :: ParentOf(cs, i).value < k <= i ==> cs[k].commentId != cs[i].parentId
    ensures ParentOf(cs, i).None? && cs[i].hasParent ==> forall k :: 0 <= k <= i ==> cs[k].commentId != cs[i].parentId
  {
  }

  ghost predicate Increasing(s: seq<nat>)
  {
    forall a, b :: 0 <= a < b < |s| ==> s[a] < s[b]
  }

  /** Appending an entry above every earlier one keeps a list increasing. */
  lemma IncreasingSnoc(r: seq<nat>, x: nat)
    requires Increasing(r) && forall a :: 0 <= a < |r| ==> r[a] < x
    ensures Increasing(r + [x])
  {
  }

  /** Every entry of `ks` lies in `[lo, hi)`. */
  ghost predicate Within(ks: seq<nat>, lo: nat, hi: nat)
  {
    forall i :: i in ks ==> lo <= i < hi
  }

  /** Indices of the top-level rows among the first `n`, in input order. */
  function RootIndices(cs: seq<Comment>, n: nat): (r: seq<nat>)
    requires n <= |cs|
    ensures Within(r, 0, n)
  {
    if n == 0 then []
    else RootIndices(cs, n - 1) + (if cs[n - 1].hasParent then [] else [n - 1])
  }

  /** The top-level rows among the first `n` are exactly the rows without a parent, in input order. */
  lemma {:induction false} RootIndicesExact(cs: seq<Comment>, n: nat)
    requires n <= |cs|
    ensures forall i: nat :: i in RootIndices(cs, n) <==> i < n && !cs[i].hasParent
    ensures Increasing(RootIndices(cs, n))
  {
    if n > 0 {
      RootIndicesExact(cs, n - 1);
      var r := RootIndices(cs, n - 1);
      if cs[n - 1].hasParent {
        assert RootIndices(cs, n) == r + [] == r;
      } else {
        assert forall a :: 0 <= a < |r| ==> r[a] in r;
        IncreasingSnoc(r, n - 1);
        assert RootIndices(cs, n) == r + [n - 1];
      }
    }
  }

  /** Indices of the rows among the first `n` appended to node `j`, in input order. */
  function ChildIndices(cs: seq<Comment>, j: nat, n: nat): (r: seq<nat>)
    requires n <= |cs|
    ensures Within(r, 0, n)
  {
    if n == 0 then []
    else ChildIndices(cs, j, n - 1) + (if ParentOf(cs, n - 1) == Some(j) then [n - 1] else [])
  }

  /** The rows among the first `n` appended to node `j` are exactly those attached to it, in input order. */
  lemma {:induction false} ChildIndicesExact(cs: seq<Comment>, j: nat, n: nat)
    requires n <= |cs|
    ensures forall i: nat :: i in ChildIndices(cs, j, n) <==> i < n && ParentOf(cs, i) == Some(j)
    ensures Increasing(ChildIndices(cs, j, n))
  {
    if n > 0 {
      ChildIndicesExact(cs, j, n - 1);
      var r := ChildIndices(cs, j, n - 1);
      if ParentOf(cs, n - 1) == Some(j) {
        assert forall a :: 0 <= a < |r| ==> r[a] in r;
        IncreasingSnoc(r, n - 1);
        assert ChildIndices(cs, j, n) == r + [n - 1];
      } else {
        assert ChildIndices(cs, j, n) == r + [] == r;
      }
    }
  }

  /** The entries of `s` above `j`, in order (a node's list minus a reference to itself). */
  function Above(s: seq<nat>, j: nat): (r: seq<nat>)
    ensures forall i :: i in r <==> i in s && i > j
    ensures |r| <= |s|
    ensures (forall i :: i in s ==> i > j) ==> r == s
  {
    if s == [] then []
    else
      assert s == [s[0]] + s[1..];
      assert s[0] in s;
      assert forall i :: i in s[1..] ==> i in s;
      var rest := Above(s[1..], j);
      assert (forall i :: i in s ==> i > j) ==> s[0] > j && rest == s[1..];
      (if s[0] > j then [s[0]] else []) + rest
  }

  /** An arena fits the rows: one children list per row, naming rows only. */
  ghost predicate ArenaFits(cs: seq<Comment>, arena: seq<seq<nat>>)
  {
    |arena| == |cs| && forall j :: 0 <= j < |arena| ==> Within(arena[j], 0, |cs|)
  }

  /** The arena the loop has built once every row is in. */
  function SpecArena(cs: seq<Comment>): (a: seq<seq<nat>>)
    ensures ArenaFits(cs, a)
  {
    seq(|cs|, j requires 0 <= j < |cs| => ChildIndices(cs, j, |cs|))
  }

  /** Entry `j` of the finished arena lists the replies to row `j`. */
  lemma SpecArenaAt(cs: seq<Comment>, j: nat)
    requires j < |cs|
    ensures SpecArena(cs)[j] == ChildIndices(cs, j, |cs|)
  {
  }

  /**
   * Node `j` read out of the arena as a value. A self-reference (a reply whose
   * `parent_id` is its own id) is cut; `SelfParentUnreachable` shows no root reaches
   * such a node, so the forest read from the roots loses nothing.
   */
  function Materialize(cs: seq<Comment>, arena: seq<seq<nat>>, j: nat): Node
    requires ArenaFits(cs, arena) && j < |cs|
    decreases |cs| - j, 0
  {
    var kids := Above(arena[j], j);
    Node(cs[j], MaterializeAll(cs, arena, kids, j + 1))
  }

  /** The nodes named by `ks`, read out of the arena, in order. */
  function MaterializeAll(cs: seq<Comment>, arena: seq<seq<nat>>, ks: seq<nat>, lo: nat): (r: seq<Node>)
    requires ArenaFits(cs, arena) && lo <= |cs|
    requires Within(ks, lo, |cs|)
    decreases |cs| - lo, |ks|
  {
    if ks == [] then []
    else
      assert ks[0] in ks;
      assert forall i :: i in ks[1..] ==> i in ks;
      [Materialize(cs, arena, ks[0])] + MaterializeAll(cs, arena, ks[1..], lo)
  }

  /** The forest `create_comment_tree` returns for present rows `cs`. */
  function Forest(cs: seq<Comment>): seq<Node>
  {
    MaterializeAll(cs, SpecArena(cs), RootIndices(cs, |cs|), 0)
  }

  /** The rows of a list whose entries are all present. */
  function Present(rows: seq<Option<Comment>>): (cs: seq<Comment>)
    requires forall i :: 0 <= i < |rows| ==> rows[i].Some?
    ensures |cs| == |rows| && forall i :: 0 <= i < |rows| ==> cs[i] == rows[i].value
  {
    seq(|rows|, i requires 0 <= i < |rows| => rows[i].value)
  }

  /* ---------- The builder ---------- */

  /**
   * `create_comment_tree(comments)`. The list must be non-empty (its first entry is
   * read) and, once the first entry is a row, every entry must be one (each is
   * dereferenced). A falsy first entry gives the empty forest.
   */
  method CreateCommentTree(rows: seq<Option<Comment>>) returns (forest: seq<Node>)
    requires |rows| > 0
    requires rows[0].Some? ==> forall i :: 0 <= i < |rows| ==> rows[i].Some?
    ensures rows[0].None? ==> forest == []
    ensures rows[0].Some? ==> forest == Forest(Present(rows))
  {
    if rows[0].None? {
      return [];
    }
    var cs := Present(rows);
    var roots, arena := LinkRows(cs);
    forest := MaterializeAll(cs, arena, roots, 0);
  }

  /**
   * The `for` loop of `create_comment_tree`: one node per row, the dictionary entry
   * for its id, and an append to the root list or to its parent's `children`.
   */
  method LinkRows(cs: seq<Comment>) returns (roots: seq<nat>, arena: seq<seq<nat>>)
    ensures roots == RootIndices(cs, |cs|)
    ensures arena == SpecArena(cs)
  {
    var dict: map<int, nat> := map[];
    roots := [];
    arena := [];
    var n := 0;
    while n < |cs|
      invariant 0 <= n <= |cs|
      invariant forall id :: Lookup(dict, id) == LastIndexBefore(cs, id, n)
      invariant roots == RootIndices(cs, n)
      invariant |arena| == n
      invariant forall j :: 0 <= j < n ==> arena[j] == ChildIndices(cs, j, n)
    {
      var c := cs[n];
      // the new node starts with no children and takes over the dictionary entry
      arena := arena + [[]];
      DictStep(cs, dict, dict[c.commentId := n], n);
      dict := dict[c.commentId := n];
      ghost var before := arena;
      if !c.hasParent {
        roots := roots + [n];
      } else if c.parentId in dict {
        var p := dict[c.parentId];
        assert Lookup(dict, c.parentId) == Some(p);
        arena := arena[p := arena[p] + [n]];
      } else {
        assert Lookup(dict, c.parentId) == None;
      }
      ArenaStep(cs, before, arena, n);
      n := n + 1;
    }
    ArenaComplete(cs, arena);
  }

  /** The dictionary's `get`. */
  function Lookup(dict: map<int, nat>, id: int): Option<nat>
  {
    if id in dict then Some(dict[id]) else None
  }

  /** Taking in row `n` makes it the dictionary entry for its id and leaves the other entries. */
  lemma DictStep(cs: seq<Comment>, dict: map<int, nat>, next: map<int, nat>, n: nat)
    requires n < |cs| && next == dict[cs[n].commentId := n]
    requires forall id :: Lookup(dict, id) == LastIndexBefore(cs, id, n)
    ensures forall id :: Lookup(next, id) == LastIndexBefore(cs, id, n + 1)
  {
  }

  /** Once every row is in, the arena is the specification's. */
  lemma ArenaComplete(cs: seq<Comment>, arena: seq<seq<nat>>)
    requires |arena| == |cs|
    requires forall j :: 0 <= j < |cs| ==> arena[j] == ChildIndices(cs, j, |cs|)
    ensures arena == SpecArena(cs)
  {
  }

  /** Taking in row `n` adds an empty list for it and appends `n` to its parent's list only. */
  lemma ArenaStep(cs: seq<Comment>, arena: seq<seq<nat>>, next: seq<seq<nat>>, n: nat)
    requires n < |cs| && |arena| == n + 1 && arena[n] == []
    requires forall j :: 0 <= j < n ==> arena[j] == ChildIndices(cs, j, n)
    requires ParentOf(cs, n).None? ==> next == arena
    requires ParentOf(cs, n).Some? ==>
      next == arena[ParentOf(cs, n).value := arena[ParentOf(cs, n).value] + [n]]
    ensures |next| == n + 1
    ensures forall j :: 0 <= j <= n ==> next[j] == ChildIndices(cs, j, n + 1)
  {
    NoChildrenYet(cs, n, n);
  }

  /** A row has no children among the rows before it: a reply comes after its parent. */
  lemma {:induction false} NoChildrenYet(cs: seq<Comment>, j: nat, n: nat)
    requires n <= j && n <= |cs|
    ensures ChildIndices(cs, j, n) == []
  {
    if n > 0 {
      NoChildrenYet(cs, j, n - 1);
      var p := ParentOf(cs, n - 1);
      assert p != Some(j) by {
        if p.Some? {
          assert p.value <= n - 1;
        }
      }
    }
  }

  /* ---------- What the forest is ---------- */

  /** The forest holds one node per top-level row, in input order, each built from that row. */
  lemma ForestRoots(cs: seq<Comment>)
    ensures |Forest(cs)| == |RootIndices(cs, |cs|)|
    ensures forall k :: 0 <= k < |Forest(cs)| ==>
      && RootIndices(cs, |cs|)[k] in RootIndices(cs, |cs|)
      && Forest(cs)[k] == Materialize(cs, SpecArena(cs), RootIndices(cs, |cs|)[k])
    ensures forall k :: 0 <= k < |Forest(cs)| ==> !Forest(cs)[k].comment.hasParent
  {
    RootIndicesExact(cs, |cs|);
    MaterializeAllAt(cs, SpecArena(cs), RootIndices(cs, |cs|), 0);
  }

  lemma {:induction false} MaterializeAllAt(cs: seq<Comment>, arena: seq<seq<nat>>, ks: seq<nat>, lo: nat)
    requires ArenaFits(cs, arena) && lo <= |cs|
    requires Within(ks, lo, |cs|)
    ensures |MaterializeAll(cs, arena, ks, lo)| == |ks|
    ensures forall k :: 0 <= k < |ks| ==> ks[k] in ks && MaterializeAll(cs, arena, ks, lo)[k] == Materialize(cs, arena, ks[k])
  {
    if ks != [] {
      assert forall i :: i in ks[1..] ==> i in ks;
      MaterializeAllAt(cs, arena, ks[1..], lo);
    }
  }
}
