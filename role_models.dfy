/**
 * The `user_roles` table of the server: which user holds which role, optionally
 * within one subpost. Role 1 is the moderator role; `add_moderator` inserts it
 * at most once per (user, subpost).
 */
module RoleModels {
  import opened Wrappers

  const ModRole: int := 1

  /** A `user_roles` row; `id` is the database's auto-increment key. */
  datatype UserRole = UserRole(id: int, userId: int, roleId: int, subpostId: Option<int>)

  /** `as_dict()`. */
  datatype UserRoleDict = UserRoleDict(id: int, userId: int, roleId: int, subpostId: Option<int>)

  /** A JSON answer with its status code. */
  datatype Response = Response(message: string, code: int)

  /** `UserRole(user_id, subpost_id, role_id)`: the fields as given; the key is assigned on insert. */
  function NewUserRole(id: int, userId: int, subpostId: int, roleId: int): (r: UserRole)
    ensures r.userId == userId && r.subpostId == Some(subpostId) && r.roleId == roleId && r.id == id
  {
    UserRole(id, userId, roleId, Some(subpostId))
  }

  function AsDict(r: UserRole): UserRoleDict
  {
    UserRoleDict(r.id, r.userId, r.roleId, r.subpostId)
  }

  function FromDict(d: UserRoleDict): UserRole
  {
    UserRole(d.id, d.userId, d.roleId, d.subpostId)
  }

  /** `as_dict` reports the four fields unchanged: the row comes back from it. */
  lemma AsDictRoundTrip(r: UserRole, d: UserRoleDict)
    ensures FromDict(AsDict(r)) == r && AsDict(FromDict(d)) == d
  {
  }

  /** A moderator row for (user, subpost) exists. */
  predicate HasMod(rows: seq<UserRole>, userId: int, subpostId: int)
  {
    exists k :: 0 <= k < |rows| && rows[k].userId == userId && rows[k].subpostId == Some(subpostId) && rows[k].roleId == ModRole
  }

  /** The table after `add_moderator`: unchanged when the row exists, else one row appended. */
  function AddModeratorRows(rows: seq<UserRole>, id: int, userId: int, subpostId: int): (r: seq<UserRole>)
    ensures HasMod(r, userId, subpostId)
    ensures |r| >= |rows| && r[..|rows|] == rows
    ensures HasMod(rows, userId, subpostId) ==> r == rows
    ensures !HasMod(rows, userId, subpostId) ==> r == rows + [NewUserRole(id, userId, subpostId, ModRole)]
  {
    if HasMod(rows, userId, subpostId) then rows
    else
      var r := rows + [NewUserRole(id, userId, subpostId, ModRole)];
      assert r[|rows|].userId == userId;
      r
  }

  /** Adding a moderator a second time leaves the table as the first call left it. */
  lemma AddModeratorIdempotent(rows: seq<UserRole>, id1: int, id2: int, userId: int, subpostId: int)
    ensures AddModeratorRows(AddModeratorRows(rows, id1, userId, subpostId), id2, userId, subpostId)
         == AddModeratorRows(rows, id1, userId, subpostId)
  {
  }

  /** No (user, subpost) pair holds the moderator role twice. */
  ghost predicate UniqueMods(rows: seq<UserRole>)
  {
    forall i, j :: 0 <= i < j < |rows| ==> !SameModerator(rows[i], rows[j])
  }

  /** Two moderator rows for the same user in the same subpost. */
  predicate SameModerator(a: UserRole, b: UserRole)
  {
    a.roleId == ModRole && b.roleId == ModRole && a.subpostId.Some?
    && a.userId == b.userId && a.subpostId == b.subpostId
  }

  /** `add_moderator` keeps moderator rows unique. */
  lemma AddModeratorKeepsUnique(rows: seq<UserRole>, id: int, userId: int, subpostId: int)
    requires UniqueMods(rows)
    ensures UniqueMods(AddModeratorRows(rows, id, userId, subpostId))
  {
    var r := AddModeratorRows(rows, id, userId, subpostId);
    if !HasMod(rows, userId, subpostId) {
      forall i, j | 0 <= i < j < |r|
        ensures !SameModerator(r[i], r[j])
      {
        if j == |rows| {
          assert r[i] == rows[i];
          assert !(rows[i].userId == userId && rows[i].subpostId == Some(subpostId) && rows[i].roleId == ModRole);
        } else {
          assert r[i] == rows[i] && r[j] == rows[j];
        }
      }
    }
  }

  /** The `user_roles` table with the database's next key. */
  class RoleTable {
    var rows: seq<UserRole>
    var nextId: int

    constructor (rows: seq<UserRole>, nextId: int)
      ensures this.rows == rows && this.nextId == nextId
    {
      this.rows := rows;
      this.nextId := nextId;
    }

    /**
     * `add_moderator(user_id, subpost_id)`: 400 "Mod already exists" when the
     * moderator row is there (nothing changes); otherwise the row is inserted and
     * nothing is returned.
     */
    method AddModerator(userId: int, subpostId: int) returns (res: Option<Response>)
      modifies this
      ensures rows == AddModeratorRows(old(rows), old(nextId), userId, subpostId)
      ensures HasMod(old(rows), userId, subpostId) ==> res == Some(Response("Mod already exists", 400)) && nextId == old(nextId)
      ensures !HasMod(old(rows), userId, subpostId) ==> res.None? && nextId == old(nextId) + 1
    {
      if HasMod(rows, userId, subpostId) {
        return Some(Response("Mod already exists", 400));
      }
      rows := rows + [NewUserRole(nextId, userId, subpostId, ModRole)];
      nextId := nextId + 1;
      res := None;
    }
  }
}
