/**
 * `FolderStorage`: the `folders` table with its `serial` id sequence, the
 * listing of one folder's children ordered by name, and the writes the
 * folder routes make. Deleting a folder touches only this table: nothing
 * cascades to the folders or files inside it.
 */
module FolderStorage {
  import opened Wrappers
  import opened Schema
  import Ordering

  /**
   * The `WHERE` clause of `getFoldersByParent`: the owner matches, and the
   * parent is the given one when it is truthy, NULL otherwise.
   */
  predicate InParent(userId: UserId, parentId: Option<int>, f: Folder) {
    f.userId == userId && if IsTruthy(parentId) then f.parentId == parentId else f.parentId.None?
  }

  /** The rows the `WHERE` clause keeps, in table order. */
  function Children(rows: seq<Folder>, userId: UserId, parentId: Option<int>): (r: seq<Folder>)
    ensures |r| <= |rows|
    ensures forall f :: f in r <==> f in rows && InParent(userId, parentId, f)
  {
    if rows == [] then []
    else (if InParent(userId, parentId, rows[0]) then [rows[0]] else []) + Children(rows[1..], userId, parentId)
  }

  function NameKey(f: Folder): Ordering.Key {
    Ordering.Text(f.name)
  }

  /**
   * `getFoldersByParent`: the children of a folder (or of the root), `ORDER
   * BY name`. A truthy parent id outside `integer` makes the query throw.
   */
  function FoldersByParent(rows: seq<Folder>, userId: UserId, parentId: Option<int>): (r: Result<seq<Folder>, StoreError>)
    ensures r.Failure? <==> IsTruthy(parentId) && !IsInt4(parentId.value)
    ensures r.Failure? ==> r.error == IntegerOutOfRange
    ensures r.Success? ==> Ordering.SortedBy(r.value, NameKey, false)
    ensures r.Success? ==> multiset(r.value) == multiset(Children(rows, userId, parentId))
  {
    if IsTruthy(parentId) && !IsInt4(parentId.value) then Failure(IntegerOutOfRange)
    else
      Ordering.SortByIsSortedPermutation(Children(rows, userId, parentId), NameKey, false);
      Success(Ordering.SortBy(Children(rows, userId, parentId), NameKey, false))
  }

  /** When the listing answers, a folder is in it exactly when it belongs to the user and sits under that parent. */
  lemma ListedIff(rows: seq<Folder>, userId: UserId, parentId: Option<int>, f: Folder)
    ensures var r := FoldersByParent(rows, userId, parentId);
      r.Success? ==> (f in r.value <==> f in rows && InParent(userId, parentId, f))
  {
    var r := FoldersByParent(rows, userId, parentId);
    if r.Success? {
      assert f in r.value <==> f in multiset(r.value);
      assert f in Children(rows, userId, parentId) <==> f in multiset(Children(rows, userId, parentId));
    }
  }

  /** Listing under parent `0` is listing the root, as JavaScript treats `0` as false. */
  lemma {:induction false} ZeroParentIsRoot(rows: seq<Folder>, userId: UserId)
    ensures Children(rows, userId, Some(0)) == Children(rows, userId, None)
  {
    if rows != [] {
      ZeroParentIsRoot(rows[1..], userId);
    }
  }

  /**
   * A folder whose `parentId` is `0` is listed under no parent at all: the
   * root asks for a NULL parent and parent `0` is the root.
   */
  lemma ZeroParentIsInvisible(rows: seq<Folder>, userId: UserId, parentId: Option<int>, f: Folder)
    requires f.parentId == Some(0)
    ensures var r := FoldersByParent(rows, userId, parentId);
      r.Success? ==> f !in r.value
  {
    ListedIff(rows, userId, parentId, f);
  }

  // ----- The table and its writes -----

  predicate UniqueIds(rows: seq<Folder>) {
    forall i, j :: 0 <= i < j < |rows| ==> rows[i].id != rows[j].id
  }

  predicate HasId(rows: seq<Folder>, id: int) {
    exists j :: 0 <= j < |rows| && rows[j].id == id
  }

  predicate HasIdOtherThan(rows: seq<Folder>, id: int, i: nat) {
    exists j :: 0 <= j < |rows| && j != i && rows[j].id == id
  }

  /** The position of the row with this `id` and `userId`. */
  function IndexOf(rows: seq<Folder>, id: int, userId: UserId): (r: Option<nat>)
    ensures r.Some? ==> r.value < |rows| && rows[r.value].id == id && rows[r.value].userId == userId
    ensures r.None? ==> forall j :: 0 <= j < |rows| ==> !(rows[j].id == id && rows[j].userId == userId)
  {
    if rows == [] then None
    else if rows[0].id == id && rows[0].userId == userId then Some(0)
    else match IndexOf(rows[1..], id, userId)
      case None => None
      case Some(k) => Some(k + 1)
  }

  /**
   * `getFolderById`: a row is returned only when both its `id` and its
   * `userId` match; an id outside `integer` makes the query throw.
   */
  function FolderById(rows: seq<Folder>, id: int, userId: UserId): (r: Result<Option<Folder>, StoreError>)
    ensures r.Failure? <==> !IsInt4(id)
    ensures r.Failure? ==> r.error == IntegerOutOfRange
    ensures r.Success? && r.value.Some? ==> r.value.value in rows && r.value.value.id == id && r.value.value.userId == userId
    ensures r.Success? && r.value.None? ==> forall f :: f in rows ==> !(f.id == id && f.userId == userId)
  {
    if !IsInt4(id) then Failure(IntegerOutOfRange)
    else match IndexOf(rows, id, userId)
      case None => Success(None)
      case Some(i) => Success(Some(rows[i]))
  }

  /** Under unique ids, the row found by id is the only row with that id. */
  lemma {:induction false} IndexOfUnique(rows: seq<Folder>, id: int, userId: UserId, j: nat)
    requires UniqueIds(rows) && j < |rows| && rows[j].id == id && rows[j].userId == userId
    ensures IndexOf(rows, id, userId) == Some(j)
  {
    if j > 0 {
      assert rows[0].id != id;
      assert UniqueIds(rows[1..]) by {
        forall a, b | 0 <= a < b < |rows[1..]|
          ensures rows[1..][a].id != rows[1..][b].id
        {
          assert rows[1..][a] == rows[a + 1] && rows[1..][b] == rows[b + 1];
        }
      }
      IndexOfUnique(rows[1..], id, userId, j - 1);
    }
  }

  /** The `folders` table, with the `serial` sequence that numbers new rows. */
  class FolderTable {
    var rows: seq<Folder>
    var nextId: int

    ghost predicate Valid()
      reads this
    {
      UniqueIds(rows) && forall f :: f in rows ==> FolderFitsColumns(f)
    }

    constructor ()
      ensures Valid() && rows == [] && nextId == 1
    {
      rows := [];
      nextId := 1;
    }

    /**
     * `createFolder`: inserts the row and returns it, after which the folder
     * can be fetched by its id. A `parentId` outside `integer` fails
     * before the sequence is asked for a value; past that point the
     * sequence advances whether the insert succeeds or not.
     */
    method CreateFolder(n: InsertFolder, now: int) returns (r: Result<Folder, StoreError>)
      requires Valid()
      modifies this
      ensures Valid()
      ensures nextId == if InsertFolderBinds(n) then old(nextId) + 1 else old(nextId)
      ensures !InsertFolderBinds(n) ==> r == Failure(IntegerOutOfRange)
      ensures r.Success? <==> IsInt4(old(nextId)) && StoreFolder(FolderRow(n, old(nextId), now)).Some? && !HasId(old(rows), old(nextId))
      ensures r.Success? ==> r.value == StoreFolder(FolderRow(n, old(nextId), now)).value && rows == old(rows) + [r.value]
      ensures r.Success? && InsertFolderAccepted(n) ==> r.value == FolderRow(n, old(nextId), now)
      ensures r.Success? ==> FolderById(rows, r.value.id, n.userId) == Success(Some(r.value))
      ensures r.Failure? ==> rows == old(rows)
    {
      if !InsertFolderBinds(n) {
        return Failure(IntegerOutOfRange);
      }
      var id := nextId;
      nextId := nextId + 1;
      if !IsInt4(id) {
        return Failure(SequenceExhausted);
      }
      var stored := StoreFolder(FolderRow(n, id, now));
      if stored.None? {
        return Failure(ColumnConstraint);
      }
      if HasId(rows, id) {
        return Failure(DuplicateKey);
      }
      if InsertFolderAccepted(n) {
        AcceptedFolderIsStoredAsGiven(n, id, now);
      }
      var f := stored.value;
      rows := rows + [f];
      IndexOfUnique(rows, id, n.userId, |rows| - 1);
      r := Success(f);
    }

    /**
     * `updateFolder`: merges the patch into the one row whose `id` and
     * `userId` match and sets its `updatedAt`; `Success(None)` when no row
     * matches. When `id` or an integer value of the patch lies outside
     * `integer`, the statement fails before it reads any row. The merged
     * row is stored as the columns take it: refused when
     * a value does not fit, with over-long trailing spaces cut otherwise.
     * Every other row is left as it was.
     */
    method UpdateFolder(id: int, userId: UserId, p: FolderPatch, now: int) returns (r: Result<Option<Folder>, StoreError>)
      requires Valid()
      modifies this
      ensures Valid() && nextId == old(nextId) && |rows| == |old(rows)|
      ensures !(IsInt4(id) && FolderPatchBinds(p)) ==> r == Failure(IntegerOutOfRange) && rows == old(rows)
      ensures IsInt4(id) && FolderPatchBinds(p) && IndexOf(old(rows), id, userId).None? ==> r == Success(None) && rows == old(rows)
      ensures IsInt4(id) && FolderPatchBinds(p) && IndexOf(old(rows), id, userId).Some? ==>
        var i := IndexOf(old(rows), id, userId).value;
        var g := StoreFolder(PatchFolder(old(rows)[i], p, now));
        if g.Some? && !HasIdOtherThan(old(rows), g.value.id, i)
        then r == Success(Some(g.value)) && rows == old(rows)[i := g.value]
        else r.Failure? && rows == old(rows)
      ensures forall j :: 0 <= j < |rows| && !(old(rows)[j].id == id && old(rows)[j].userId == userId) ==>
        rows[j] == old(rows)[j]
    {
      if !IsInt4(id) || !FolderPatchBinds(p) {
        return Failure(IntegerOutOfRange);
      }
      match IndexOf(rows, id, userId) {
        case None =>
          r := Success(None);
        case Some(i) =>
          var stored := StoreFolder(PatchFolder(rows[i], p, now));
          if stored.None? {
            r := Failure(ColumnConstraint);
          } else if HasIdOtherThan(rows, stored.value.id, i) {
            r := Failure(DuplicateKey);
          } else {
            var g := stored.value;
            assert forall j :: 0 <= j < |rows| && j != i ==> rows[j].id != g.id;
            rows := rows[i := g];
            r := Success(Some(g));
          }
      }
    }

    /**
     * `deleteFolder`: removes the row whose `id` and `userId` match; true iff
     * there was one. An id outside `integer` makes the statement throw. Only
     * this table changes: the folder's children keep their `parentId`.
     */
    method DeleteFolder(id: int, userId: UserId) returns (r: Result<bool, StoreError>)
      requires Valid()
      modifies this
      ensures Valid() && nextId == old(nextId)
      ensures !IsInt4(id) ==> r == Failure(IntegerOutOfRange)
      ensures IsInt4(id) ==> r == Success(IndexOf(old(rows), id, userId).Some?)
      ensures r == Success(true) ==>
        var i := IndexOf(old(rows), id, userId).value;
        rows == old(rows)[..i] + old(rows)[i + 1..]
      ensures r != Success(true) ==> rows == old(rows)
      ensures forall f :: f in rows ==> !(f.id == id && f.userId == userId)
    {
      if !IsInt4(id) {
        assert forall f :: f in rows ==> FolderFitsColumns(f);
        return Failure(IntegerOutOfRange);
      }
      match IndexOf(rows, id, userId) {
        case None =>
          r := Success(false);
        case Some(i) =>
          ghost var before := rows;
          rows := rows[..i] + rows[i + 1..];
          assert forall j :: 0 <= j < |rows| ==> rows[j] == if j < i then before[j] else before[j + 1];
          r := Success(true);
      }
    }
  }

  /**
   * A folder the `POST /api/folders` route creates (which turns a falsy
   * `parentId` into NULL) is listed under the parent it was created in, as
   * the table stores it.
   */
  lemma CreatedFolderIsListed(rows: seq<Folder>, n: InsertFolder, id: int, now: int)
    requires n.parentId.None? || IsTruthy(n.parentId)
    requires StoreFolder(FolderRow(n, id, now)).Some?
    ensures var g := StoreFolder(FolderRow(n, id, now)).value;
      var r := FoldersByParent(rows + [g], n.userId, n.parentId);
      r.Success? && g in r.value
  {
    var g := StoreFolder(FolderRow(n, id, now)).value;
    StoreFolderCutsOnlySpaces(FolderRow(n, id, now));
    assert g.userId == n.userId && g.parentId == n.parentId;
    ListedIff(rows + [g], n.userId, n.parentId, g);
  }

  /**
   * Deleting a folder does not touch its children: every folder listed
   * under it before is still listed under its id afterwards.
   */
  lemma DeleteKeepsChildren(rows: seq<Folder>, i: nat, userId: UserId)
    requires i < |rows|
    ensures var before := FoldersByParent(rows, userId, Some(rows[i].id));
      var after := FoldersByParent(rows[..i] + rows[i + 1..], userId, Some(rows[i].id));
      && (after.Success? <==> before.Success?)
      && (before.Success? ==> forall f :: f in before.value && f != rows[i] ==> f in after.value)
  {
    var parent := Some(rows[i].id);
    var before := FoldersByParent(rows, userId, parent);
    var rest := rows[..i] + rows[i + 1..];
    if before.Success? {
      forall f | f in before.value && f != rows[i]
        ensures f in FoldersByParent(rest, userId, parent).value
      {
        ListedIff(rows, userId, parent, f);
        StillInTable(rows, i, f);
        ListedIff(rest, userId, parent, f);
      }
    }
  }

  /** Removing row `i` leaves every other row in the table. */
  lemma StillInTable(rows: seq<Folder>, i: nat, f: Folder)
    requires i < |rows| && f in rows && f != rows[i]
    ensures f in rows[..i] + rows[i + 1..]
  {
    var j :| 0 <= j < |rows| && rows[j] == f;
    if j < i {
      assert (rows[..i] + rows[i + 1..])[j] == f;
    } else {
      assert (rows[..i] + rows[i + 1..])[j - 1] == f;
    }
  }
}
