/**
 * What the forest built by `create_comment_tree` contains: which rows reach it,
 * that each row's node appears at most once, and that the forest never has more
 * nodes than there are rows.
 */
module CommentTreeFacts {
  import opened Wrappers
  import opened CommentTree

  /* ---------- Ancestry ---------- */

  /**
   * Row `a` is row `i` or one of its ancestors: following `ParentOf` from `i`
   * (always to an earlier row) reaches `a`.
   */
  ghost predicate AncestorOrSelf(cs: seq<Comment>, a: nat, i: nat)
    decreases i
  {
    i < |cs| &&
    (i == a ||
     (ParentOf(cs, i).Some? && ParentOf(cs, i).value < i && AncestorOrSelf(cs, a, ParentOf(cs, i).value)))
  }

  /**
   * Row `i` reaches the returned forest: it is a top-level row, or its parent row
   * came earlier and reaches the forest itself.
   */
  ghost predicate Reachable(cs: seq<Comment>, i: nat)
    decreases i
  {
    i < |cs| &&
    (!cs[i].hasParent ||
     (ParentOf(cs, i).Some? && ParentOf(cs, i).value < i && Reachable(cs, ParentOf(cs, i).value)))
  }

  /** The replies of node `j` that the forest shows: its children list without itself. */
  function Kids(cs: seq<Comment>, j: nat): (r: seq<nat>)
    requires j < |cs|
    ensures Within(r, j + 1, |cs|)
  {
    KidsBelow(cs, j, |cs|)
  }

  /** The rows after `j` and before `n` appended to node `j`, in input order. */
  function KidsBelow(cs: seq<Comment>, j: nat, n: nat): (r: seq<nat>)
    requires j < |cs| && n <= |cs|
    ensures Within(r, j + 1, |cs|)
  {
    if n <= j + 1 then []
    else
      var r := KidsBelow(cs, j, n - 1) + (if ParentOf(cs, n - 1) == Some(j) then [n - 1] else []);
      assert forall i :: i in r ==> i in KidsBelow(cs, j, n - 1) || i == n - 1;
      r
  }

  /** The replies below `n` are exactly the rows between `j` and `n` attached to `j`. */
  lemma {:induction false} KidsBelowMembers(cs: seq<Comment>, j: nat, n: nat)
    requires j < |cs| && n <= |cs|
    ensures forall i :: i in KidsBelow(cs, j, n) <==> j < i < n && ParentOf(cs, i) == Some(j)
  {
    if n > j + 1 {
      KidsBelowMembers(cs, j, n - 1);
    }
  }

  /** The replies below `n` are in input order. */
  lemma {:induction false} KidsBelowIncreasing(cs: seq<Comment>, j: nat, n: nat)
    requires j < |cs| && n <= |cs|
    ensures Increasing(KidsBelow(cs, j, n))
  {
    if n > j + 1 {
      KidsBelowIncreasing(cs, j, n - 1);
      KidsBelowMembers(cs, j, n - 1);
      var r := KidsBelow(cs, j, n - 1);
      if ParentOf(cs, n - 1) == Some(j) {
        assert forall a :: 0 <= a < |r| ==> r[a] in r;
        IncreasingSnoc(r, n - 1);
        assert KidsBelow(cs, j, n) == r + [n - 1];
      } else {
        assert KidsBelow(cs, j, n) == r + [] == r;
      }
    }
  }

  /** The replies the forest shows under `j` are exactly the later rows attached to it, in input order. */
  lemma KidsExact(cs: seq<Comment>, j: nat)
    requires j < |cs|
    ensures forall i :: i in Kids(cs, j) <==> j < i < |cs| && ParentOf(cs, i) == Some(j)
    ensures Increasing(Kids(cs, j))
  {
    KidsBelowMembers(cs, j, |cs|);
    KidsBelowIncreasing(cs, j, |cs|);
  }

  /** Cutting an increasing list to the entries above `j` keeps it increasing. */
  lemma {:induction false} AboveIncreasing(s: seq<nat>, j: nat)
    requires Increasing(s)
    ensures Increasing(Above(s, j))
    decreases |s|
  {
    if s != [] {
      HeadIsLeast(s);
      AboveIncreasing(s[1..], j);
      var rest := Above(s[1..], j);
      if s[0] > j {
        assert forall a :: 0 <= a < |rest| ==> rest[a] in rest;
        IncreasingCons(s[0], rest);
        assert Above(s, j) == [s[0]] + rest;
      } else {
        assert Above(s, j) == [] + rest == rest;
      }
    }
  }

  /** Two increasing lists with the same entries are the same list. */
  lemma {:induction false} IncreasingUnique(a: seq<nat>, b: seq<nat>)
    requires Increasing(a) && Increasing(b)
    requires forall i :: i in a <==> i in b
    ensures a == b
    decreases |a|
  {
    assert b == [] || b[0] in b;
    if a != [] {
      assert a[0] in a && b[0] in b;
      HeadIsLeast(a);
      HeadIsLeast(b);
      assert a[0] == b[0];
      assert a == [a[0]] + a[1..];
      assert b == [b[0]] + b[1..];
      assert forall i :: i in a[1..] <==> i in a && i != a[0];
      assert forall i :: i in b[1..] <==> i in b && i != b[0];
      IncreasingUnique(a[1..], b[1..]);
    }
  }

  /** Putting an entry below every later one in front keeps a list increasing. */
  lemma IncreasingCons(x: nat, r: seq<nat>)
    requires Increasing(r) && forall a :: 0 <= a < |r| ==> x < r[a]
    ensures Increasing([x] + r)
  {
  }

  /** The head of an increasing list is below every later entry. */
  lemma HeadIsLeast(a: seq<nat>)
    requires Increasing(a) && a != []
    ensures forall i :: i in a ==> a[0] <= i
    ensures forall i :: i in a[1..] ==> a[0] < i
    ensures Increasing(a[1..])
  {
    forall i | i in a[1..]
      ensures a[0] < i
    {
      var x :| 0 <= x < |a| - 1 && a[1..][x] == i;
      assert a[x + 1] == i;
    }
  }

  /** The replies `Kids` names are the ones the arena lists for `j`. */
  lemma KidsInArena(cs: seq<Comment>, j: nat)
    requires j < |cs|
    ensures Kids(cs, j) == Above(SpecArena(cs)[j], j)
  {
    var s := ChildIndices(cs, j, |cs|);
    assert SpecArena(cs)[j] == s;
    ChildIndicesExact(cs, j, |cs|);
    AboveIncreasing(s, j);
    KidsExact(cs, j);
    IncreasingUnique(Kids(cs, j), Above(s, j));
  }

  /** The rows of the subtree read out from node `j`, in pre-order. */
  function SubtreeRows(cs: seq<Comment>, j: nat): (r: seq<nat>)
    requires j < |cs|
    ensures Within(r, j, |cs|)
    decreases |cs| - j, 0
  {
    var below := ForestRows(cs, Kids(cs, j), j + 1);
    assert forall i :: i in [j] + below ==> i == j || i in below;
    [j] + below
  }

  /** The rows of the subtrees read out from `ks`, in pre-order. */
  function ForestRows(cs: seq<Comment>, ks: seq<nat>, lo: nat): (r: seq<nat>)
    requires lo <= |cs|
    requires Within(ks, lo, |cs|)
    ensures Within(r, lo, |cs|)
    decreases |cs| - lo, |ks|
  {
    if ks == [] then []
    else
      assert ks[0] in ks;
      assert forall i :: i in ks[1..] ==> i in ks;
      var first := SubtreeRows(cs, ks[0]);
      var rest := ForestRows(cs, ks[1..], lo);
      assert forall i :: i in first + rest ==> i in first || i in rest;
      first + rest
  }

  /** The rows whose nodes the returned forest holds, in pre-order. */
  function AllForestRows(cs: seq<Comment>): seq<nat>
  {
    ForestRows(cs, RootIndices(cs, |cs|), 0)
  }

  /** The comments of a forest in pre-order: each node, then its replies, then its later siblings. */
  function Preorder(ns: seq<Node>): seq<Comment>
    decreases ns
  {
    if ns == [] then []
    else [ns[0].comment] + Preorder(ns[0].children) + Preorder(ns[1..])
  }

  /* ---------- The forest as values matches the rows ---------- */

  /** The comments of the returned forest, in pre-order, are the rows `AllForestRows` names. */
  lemma ForestIsRows(cs: seq<Comment>)
    ensures |Preorder(Forest(cs))| == |AllForestRows(cs)|
    ensures forall k :: 0 <= k < |AllForestRows(cs)| ==>
      AllForestRows(cs)[k] < |cs| && Preorder(Forest(cs))[k] == cs[AllForestRows(cs)[k]]
  {
    SpecArenaKids(cs);
    ForestRowsMatch(cs, SpecArena(cs), RootIndices(cs, |cs|), 0);
    RowCommentsAt(cs, AllForestRows(cs));
  }

  /** The comments of the rows of a list of node references. */
  function RowComments(cs: seq<Comment>, rows: seq<nat>): (r: seq<Comment>)
    requires Within(rows, 0, |cs|)
  {
    if rows == [] then []
    else
      assert rows[0] in rows;
      assert forall i :: i in rows[1..] ==> i in rows;
      [cs[rows[0]]] + RowComments(cs, rows[1..])
  }

  lemma {:induction false} RowCommentsAppend(cs: seq<Comment>, a: seq<nat>, b: seq<nat>)
    requires Within(a, 0, |cs|)
    requires Within(b, 0, |cs|)
    ensures Within(a + b, 0, |cs|)
    ensures RowComments(cs, a + b) == RowComments(cs, a) + RowComments(cs, b)
    decreases |a|
  {
    assert forall i :: i in a + b ==> i in a || i in b;
    if a != [] {
      assert forall i :: i in a[1..] ==> i in a;
      RowCommentsAppend(cs, a[1..], b);
      assert (a + b)[1..] == a[1..] + b;
    } else {
      assert a + b == b;
    }
  }

  /** Entry `k` of `RowComments` is the comment of row `rows[k]`. */
  lemma {:induction false} RowCommentsAt(cs: seq<Comment>, rows: seq<nat>)
    requires Within(rows, 0, |cs|)
    ensures |RowComments(cs, rows)| == |rows|
    ensures forall k :: 0 <= k < |rows| ==> rows[k] < |cs| && RowComments(cs, rows)[k] == cs[rows[k]]
    decreases |rows|
  {
    if rows != [] {
      assert rows[0] in rows;
      assert forall i :: i in rows[1..] ==> i in rows;
      RowCommentsAt(cs, rows[1..]);
    }
  }

  /** An arena whose entry `j`, cut to the later rows, lists the replies `Kids` names. */
  ghost predicate ArenaKids(cs: seq<Comment>, arena: seq<seq<nat>>)
  {
    ArenaFits(cs, arena) && forall j :: 0 <= j < |cs| ==> Above(arena[j], j) == Kids(cs, j)
  }

  /** The finished arena is such an arena. */
  lemma SpecArenaKids(cs: seq<Comment>)
    ensures ArenaKids(cs, SpecArena(cs))
  {
    forall j | 0 <= j < |cs|
      ensures Above(SpecArena(cs)[j], j) == Kids(cs, j)
    {
      KidsInArena(cs, j);
    }
  }

  lemma {:induction false} ForestRowsMatch(cs: seq<Comment>, arena: seq<seq<nat>>, ks: seq<nat>, lo: nat)
    requires ArenaKids(cs, arena) && lo <= |cs|
    requires Within(ks, lo, |cs|)
    ensures Preorder(MaterializeAll(cs, arena, ks, lo)) == RowComments(cs, ForestRows(cs, ks, lo))
    decreases |cs| - lo, |ks|
  {
    if ks != [] {
      assert ks[0] in ks;
      assert forall i :: i in ks[1..] ==> i in ks;
      var j := ks[0];
      assert Within(ks[1..], lo, |cs|);
      assert Above(arena[j], j) == Kids(cs, j);
      ForestRowsMatch(cs, arena, Kids(cs, j), j + 1);
      ForestRowsMatch(cs, arena, ks[1..], lo);
      ForestRowsMatchStep(cs, arena, ks, lo);
    }
  }

  /** The step of `ForestRowsMatch`: the first subtree and the later siblings match, so the forest does. */
  lemma ForestRowsMatchStep(cs: seq<Comment>, arena: seq<seq<nat>>, ks: seq<nat>, lo: nat)
    requires ArenaFits(cs, arena) && lo <= |cs| && ks != []
    requires Within(ks, lo, |cs|)
    requires ks[0] < |cs| && Within(ks[1..], lo, |cs|)
    requires Above(arena[ks[0]], ks[0]) == Kids(cs, ks[0])
    requires Preorder(MaterializeAll(cs, arena, Kids(cs, ks[0]), ks[0] + 1))
          == RowComments(cs, ForestRows(cs, Kids(cs, ks[0]), ks[0] + 1))
    requires Preorder(MaterializeAll(cs, arena, ks[1..], lo)) == RowComments(cs, ForestRows(cs, ks[1..], lo))
    ensures Preorder(MaterializeAll(cs, arena, ks, lo)) == RowComments(cs, ForestRows(cs, ks, lo))
  {
    var j := ks[0];
    PreorderUnfold(cs, arena, ks, lo);
    RowCommentsNode(cs, j, ForestRows(cs, Kids(cs, j), j + 1), ForestRows(cs, ks[1..], lo));
  }

  /** The comments of a node's rows, its replies' rows and its later siblings' rows, in that order. */
  lemma RowCommentsNode(cs: seq<Comment>, j: nat, kidRows: seq<nat>, restRows: seq<nat>)
    requires j < |cs|
    requires Within(kidRows, 0, |cs|)
    requires Within(restRows, 0, |cs|)
    ensures Within([j] + kidRows + restRows, 0, |cs|)
    ensures RowComments(cs, [j] + kidRows + restRows)
         == [cs[j]] + RowComments(cs, kidRows) + RowComments(cs, restRows)
  {
    RowCommentsAppend(cs, [j], kidRows);
    RowCommentsAppend(cs, [j] + kidRows, restRows);
    assert RowComments(cs, [j]) == [cs[j]];
  }

  /** One step of both read-outs: the first node, its replies, then the later siblings. */
  lemma PreorderUnfold(cs: seq<Comment>, arena: seq<seq<nat>>, ks: seq<nat>, lo: nat)
    requires ArenaFits(cs, arena) && lo <= |cs| && ks != []
    requires Within(ks, lo, |cs|)
    requires ks[0] < |cs| && Above(arena[ks[0]], ks[0]) == Kids(cs, ks[0])
    ensures Within(ks[1..], lo, |cs|)
    ensures Preorder(MaterializeAll(cs, arena, ks, lo))
         == [cs[ks[0]]] + Preorder(MaterializeAll(cs, arena, Kids(cs, ks[0]), ks[0] + 1))
            + Preorder(MaterializeAll(cs, arena, ks[1..], lo))
    ensures ForestRows(cs, ks, lo)
         == [ks[0]] + ForestRows(cs, Kids(cs, ks[0]), ks[0] + 1) + ForestRows(cs, ks[1..], lo)
  {
    assert ks[0] in ks;
    assert forall i :: i in ks[1..] ==> i in ks;
    var ns := MaterializeAll(cs, arena, ks, lo);
    assert ns[1..] == MaterializeAll(cs, arena, ks[1..], lo);
  }

  /* ---------- Ancestry facts ---------- */

  /** An ancestor comes no later than its descendant. */
  lemma {:induction false} AncestorNotLater(cs: seq<Comment>, a: nat, i: nat)
    requires AncestorOrSelf(cs, a, i)
    ensures a <= i < |cs|
    decreases i
  {
    if i != a {
      AncestorNotLater(cs, a, ParentOf(cs, i).value);
    }
  }

  /** The parent of an ancestor of `i` is an ancestor of `i` too. */
  lemma {:induction false} AncestorUp(cs: seq<Comment>, a: nat, k: nat, i: nat)
    requires AncestorOrSelf(cs, k, i)
    requires k < |cs| && ParentOf(cs, k) == Some(a) && a < k
    ensures AncestorOrSelf(cs, a, i)
    decreases i
  {
    if i != k {
      AncestorUp(cs, a, k, ParentOf(cs, i).value);
    }
  }

  /** Below a proper ancestor `j` of `i` sits a reply `k` of `j` that is an ancestor of `i`. */
  lemma {:induction false} AncestorDown(cs: seq<Comment>, j: nat, i: nat) returns (k: nat)
    requires AncestorOrSelf(cs, j, i) && i != j
    ensures j < k <= i < |cs| && ParentOf(cs, k) == Some(j) && AncestorOrSelf(cs, k, i)
    decreases i
  {
    var p := ParentOf(cs, i).value;
    if p == j {
      k := i;
    } else {
      k := AncestorDown(cs, j, p);
    }
  }

  /** Of two ancestors of the same row, the earlier is an ancestor of the later. */
  lemma {:induction false} AncestorsNested(cs: seq<Comment>, a: nat, b: nat, i: nat)
    requires AncestorOrSelf(cs, a, i) && AncestorOrSelf(cs, b, i) && a <= b
    ensures AncestorOrSelf(cs, a, b)
    decreases i
  {
    if i != b {
      var p := ParentOf(cs, i).value;
      AncestorNotLater(cs, b, p);
      AncestorsNested(cs, a, b, p);
    }
  }

  /** The subtree read out from `j` holds exactly the rows `j` is an ancestor of. */
  lemma {:induction false} SubtreeMembers(cs: seq<Comment>, j: nat)
    requires j < |cs|
    ensures forall i :: i in SubtreeRows(cs, j) <==> AncestorOrSelf(cs, j, i)
    decreases |cs| - j, 0
  {
    var kids := Kids(cs, j);
    KidsExact(cs, j);
    ForestMembers(cs, kids, j + 1);
    assert SubtreeRows(cs, j) == [j] + ForestRows(cs, kids, j + 1);
    forall i | i in SubtreeRows(cs, j)
      ensures AncestorOrSelf(cs, j, i)
    {
      if i != j {
        var k :| k in kids && AncestorOrSelf(cs, k, i);
        AncestorUp(cs, j, k, i);
      }
    }
    forall i | AncestorOrSelf(cs, j, i)
      ensures i in SubtreeRows(cs, j)
    {
      if i != j {
        var k := AncestorDown(cs, j, i);
        assert k in kids;
      }
    }
  }

  /** The rows read out from `ks` are exactly those with an ancestor in `ks`. */
  lemma {:induction false} ForestMembers(cs: seq<Comment>, ks: seq<nat>, lo: nat)
    requires lo <= |cs|
    requires Within(ks, lo, |cs|)
    ensures forall i :: i in ForestRows(cs, ks, lo) <==> exists k :: k in ks && AncestorOrSelf(cs, k, i)
    decreases |cs| - lo, |ks|
  {
    if ks != [] {
      assert ks[0] in ks;
      assert forall i :: i in ks[1..] ==> i in ks;
      SubtreeMembers(cs, ks[0]);
      ForestMembers(cs, ks[1..], lo);
      assert forall k :: k in ks ==> k == ks[0] || k in ks[1..];
    }
  }

  /** A row that reaches the forest has a top-level ancestor. */
  lemma {:induction false} ReachableRoot(cs: seq<Comment>, i: nat) returns (r: nat)
    requires Reachable(cs, i)
    ensures r in RootIndices(cs, |cs|) && AncestorOrSelf(cs, r, i)
    decreases i
  {
    RootIndicesExact(cs, |cs|);
    if !cs[i].hasParent {
      r := i;
    } else {
      r := ReachableRoot(cs, ParentOf(cs, i).value);
    }
  }

  /** A row with a top-level ancestor reaches the forest. */
  lemma {:induction false} RootReaches(cs: seq<Comment>, r: nat, i: nat)
    requires r in RootIndices(cs, |cs|) && AncestorOrSelf(cs, r, i)
    ensures Reachable(cs, i)
    decreases i
  {
    RootIndicesExact(cs, |cs|);
    if i != r {
      RootReaches(cs, r, ParentOf(cs, i).value);
    }
  }

  /**
   * The forest holds exactly the rows that reach it: a top-level row, or a reply
   * whose latest earlier row with its `parent_id` reaches it. A reply whose parent
   * id names no earlier row, or only itself, is dropped with all its replies.
   */
  lemma ForestHoldsReachable(cs: seq<Comment>)
    ensures forall i :: i in AllForestRows(cs) <==> Reachable(cs, i)
    ensures forall i :: 0 <= i < |cs| && cs[i].hasParent && ParentOf(cs, i).None? ==> i !in AllForestRows(cs)
    ensures forall i :: 0 <= i < |cs| && ParentOf(cs, i) == Some(i) ==> i !in AllForestRows(cs)
  {
    var roots := RootIndices(cs, |cs|);
    ForestMembers(cs, roots, 0);
    assert AllForestRows(cs) == ForestRows(cs, roots, 0);
    forall i
      ensures i in AllForestRows(cs) <==> Reachable(cs, i)
    {
      if i in AllForestRows(cs) {
        var r :| r in roots && AncestorOrSelf(cs, r, i);
        RootReaches(cs, r, i);
      }
      if Reachable(cs, i) {
        var r := ReachableRoot(cs, i);
      }
    }
  }

  /* ---------- Each row at most once ---------- */

  ghost predicate NoDuplicates(s: seq<nat>)
  {
    forall a, b :: 0 <= a < b < |s| ==> s[a] != s[b]
  }

  /** No entry of `ks` is an ancestor of another entry. */
  ghost predicate Unrelated(cs: seq<Comment>, ks: seq<nat>)
  {
    forall a, b :: 0 <= a < |ks| && 0 <= b < |ks| && a != b ==> !AncestorOrSelf(cs, ks[a], ks[b])
  }

  /** Two replies of the same node are not ancestors of one another. */
  lemma KidsUnrelated(cs: seq<Comment>, j: nat)
    requires j < |cs|
    ensures Unrelated(cs, Kids(cs, j))
  {
    var kids := Kids(cs, j);
    KidsExact(cs, j);
    forall a, b | 0 <= a < |kids| && 0 <= b < |kids| && a != b
      ensures !AncestorOrSelf(cs, kids[a], kids[b])
    {
      assert kids[a] in kids && kids[b] in kids;
      if AncestorOrSelf(cs, kids[a], kids[b]) {
        AncestorNotLater(cs, kids[a], kids[b]);
        AncestorNotLater(cs, kids[a], j);
        assert false;
      }
    }
  }

  /** Top-level nodes and each node's replies keep the order of the input rows. */
  lemma InInputOrder(cs: seq<Comment>, j: nat)
    requires j < |cs|
    ensures Increasing(RootIndices(cs, |cs|))
    ensures Increasing(Kids(cs, j))
  {
    RootIndicesExact(cs, |cs|);
    KidsExact(cs, j);
  }

  /** Two top-level rows are not ancestors of one another. */
  lemma RootsUnrelated(cs: seq<Comment>)
    ensures Unrelated(cs, RootIndices(cs, |cs|))
  {
    var roots := RootIndices(cs, |cs|);
    RootIndicesExact(cs, |cs|);
    forall a, b | 0 <= a < |roots| && 0 <= b < |roots| && a != b
      ensures !AncestorOrSelf(cs, roots[a], roots[b])
    {
      assert roots[a] in roots && roots[b] in roots;
    }
  }

  lemma DistinctConcat(a: seq<nat>, b: seq<nat>)
    requires NoDuplicates(a) && NoDuplicates(b)
    requires forall i :: i in a ==> i !in b
    ensures NoDuplicates(a + b)
  {
    forall x, y | 0 <= x < y < |a + b|
      ensures (a + b)[x] != (a + b)[y]
    {
      if x < |a| && y >= |a| {
        assert a[x] in a && b[y - |a|] in b;
      }
    }
  }

  /** The subtree read out from a node names each row at most once. */
  lemma {:induction false} SubtreeDistinct(cs: seq<Comment>, j: nat)
    requires j < |cs|
    ensures NoDuplicates(SubtreeRows(cs, j))
    decreases |cs| - j, 0
  {
    var kids := Kids(cs, j);
    KidsUnrelated(cs, j);
    ForestDistinct(cs, kids, j + 1);
    DistinctConcat([j], ForestRows(cs, kids, j + 1));
  }

  /** Subtrees read out from unrelated nodes name each row at most once between them. */
  lemma {:induction false} ForestDistinct(cs: seq<Comment>, ks: seq<nat>, lo: nat)
    requires lo <= |cs|
    requires Within(ks, lo, |cs|)
    requires Unrelated(cs, ks)
    ensures NoDuplicates(ForestRows(cs, ks, lo))
    decreases |cs| - lo, |ks|
  {
    if ks != [] {
      assert ks[0] in ks;
      assert forall i :: i in ks[1..] ==> i in ks;
      SubtreeDistinct(cs, ks[0]);
      UnrelatedTail(cs, ks);
      ForestDistinct(cs, ks[1..], lo);
      FirstApart(cs, ks, lo);
      DistinctConcat(SubtreeRows(cs, ks[0]), ForestRows(cs, ks[1..], lo));
    }
  }

  lemma UnrelatedTail(cs: seq<Comment>, ks: seq<nat>)
    requires ks != [] && Unrelated(cs, ks)
    ensures Unrelated(cs, ks[1..])
  {
    forall a, b | 0 <= a < |ks| - 1 && 0 <= b < |ks| - 1 && a != b
      ensures !AncestorOrSelf(cs, ks[1..][a], ks[1..][b])
    {
      assert ks[1..][a] == ks[a + 1] && ks[1..][b] == ks[b + 1];
    }
  }

  /** The subtree of the first of unrelated nodes shares no row with those of the others. */
  lemma FirstApart(cs: seq<Comment>, ks: seq<nat>, lo: nat)
    requires lo <= |cs| && ks != []
    requires Within(ks, lo, |cs|)
    requires Unrelated(cs, ks)
    ensures ks[0] < |cs| && Within(ks[1..], lo, |cs|)
    ensures forall i :: i in SubtreeRows(cs, ks[0]) ==> i !in ForestRows(cs, ks[1..], lo)
  {
    assert ks[0] in ks;
    assert forall i :: i in ks[1..] ==> i in ks;
    var first := SubtreeRows(cs, ks[0]);
    var rest := ForestRows(cs, ks[1..], lo);
    SubtreeMembers(cs, ks[0]);
    ForestMembers(cs, ks[1..], lo);
    forall i | i in first
      ensures i !in rest
    {
      if i in rest {
        var k :| k in ks[1..] && AncestorOrSelf(cs, k, i);
        var b :| 0 <= b < |ks[1..]| && ks[1..][b] == k;
        assert ks[b + 1] == k;
        assert !AncestorOrSelf(cs, ks[0], k) && !AncestorOrSelf(cs, k, ks[0]);
        if ks[0] <= k {
          AncestorsNested(cs, ks[0], k, i);
        } else {
          AncestorsNested(cs, k, ks[0], i);
        }
      }
    }
  }

  function Range(n: nat): (r: set<nat>)
    ensures forall i: nat :: i in r <==> i < n
    ensures |r| == n
  {
    if n == 0 then {}
    else
      var r := Range(n - 1);
      assert n - 1 !in r;
      r + {n - 1}
  }

  function Elements(s: seq<nat>): (r: set<nat>)
    ensures forall i :: i in r <==> i in s
  {
    set i | i in s
  }

  lemma {:induction false} DistinctCard(s: seq<nat>)
    requires NoDuplicates(s)
    ensures |Elements(s)| == |s|
  {
    if s != [] {
      var t := s[1..];
      DistinctCard(t);
      forall k | 0 <= k < |t|
        ensures t[k] != s[0]
      {
        assert t[k] == s[k + 1];
      }
      assert s[0] !in Elements(t);
      assert Elements(s) == {s[0]} + Elements(t);
    } else {
      assert Elements(s) == {};
    }
  }

  /** A list naming rows of `cs`, each at most once, is no longer than `cs`. */
  lemma DistinctBounded(s: seq<nat>, n: nat)
    requires NoDuplicates(s)
    requires Within(s, 0, n)
    ensures |s| <= n
  {
    DistinctCard(s);
    SubsetCard(Elements(s), Range(n));
  }

  lemma {:induction false} SubsetCard(a: set<nat>, b: set<nat>)
    requires a <= b
    ensures |a| <= |b|
    decreases |b|
  {
    if a != {} {
      var x :| x in a;
      SubsetCard(a - {x}, b - {x});
    }
  }

  /**
   * Every row's node appears at most once in the returned forest, so the forest has
   * at most as many nodes as there are rows.
   */
  lemma ForestRowsDistinct(cs: seq<Comment>)
    ensures NoDuplicates(AllForestRows(cs))
    ensures |Preorder(Forest(cs))| <= |cs|
  {
    RootsUnrelated(cs);
    ForestDistinct(cs, RootIndices(cs, |cs|), 0);
    ForestIsRows(cs);
    DistinctBounded(AllForestRows(cs), |cs|);
  }

  /**
   * A node that reaches the forest never holds itself, so cutting self-references
   * when reading out the arena changes no node the forest shows.
   */
  lemma SelfParentUnreachable(cs: seq<Comment>, j: nat)
    requires j < |cs|
    ensures ParentOf(cs, j) == Some(j) ==> !Reachable(cs, j)
    ensures Reachable(cs, j) ==> Kids(cs, j) == SpecArena(cs)[j]
  {
    if Reachable(cs, j) {
      KidsInArena(cs, j);
      var s := ChildIndices(cs, j, |cs|);
      ChildIndicesExact(cs, j, |cs|);
      forall i | i in s
        ensures i > j
      {
        assert i != j;
      }
    }
  }
}
