/**
 * The `folders` and `files` tables: their rows, the shapes the insert
 * schemas accept, partial updates, and the limits the columns put on values.
 * Timestamps are milliseconds supplied by the caller; columns declared
 * without `notNull()` are `Option`s (SQL NULL is `None`).
 */
module Schema {
  import opened Wrappers
  import JsText

  type UserId = string

  const FileNameMaxLength: nat := 255
  const MimeTypeMaxLength: nat := 100
  const PathMaxLength: nat := 500
  const FolderNameMaxLength: nat := 255

  /** The range of a PostgreSQL `integer` (and `serial`) column. */
  predicate IsInt4(n: int) {
    -0x8000_0000 <= n <= 0x7FFF_FFFF
  }

  predicate IsInt4OrNull(n: Option<int>) {
    n.Some? ==> IsInt4(n.value)
  }

  /** JavaScript truthiness of a nullable id: `null` and `0` are falsy. */
  predicate IsTruthy(id: Option<int>) {
    id.Some? && id.value != 0
  }

  /** A row of `folders`. `parentId` has no reference constraint. */
  datatype Folder = Folder(
    id: int,
    name: string,
    parentId: Option<int>,
    userId: UserId,
    createdAt: Option<int>,
    updatedAt: Option<int>)

  /**
   * A row of `files`. `isStarred` and `isTrashed` default to false but are
   * nullable; `folderId` has no reference constraint.
   */
  datatype File = File(
    id: int,
    name: string,
    originalName: string,
    mimeType: string,
    size: int,
    path: string,
    folderId: Option<int>,
    userId: UserId,
    isStarred: Option<bool>,
    isTrashed: Option<bool>,
    createdAt: Option<int>,
    updatedAt: Option<int>)

  /** Why the database refuses a statement. */
  datatype StoreError =
    | SequenceExhausted  // the `serial` sequence passed the `integer` range
    | ColumnConstraint   // a value too long for its varchar, or an integer column refuses a value
    | DuplicateKey       // the primary key is already taken
    | IntegerOutOfRange  // a parameter bound for an `integer` column lies outside its range

  /** A property of an insert or update object: left out, or given a value. */
  datatype Field<+T> = Absent | Given(value: T) {
    function Or(current: T): T {
      match this
      case Given(v) => v
      case Absent => current
    }
  }

  /** What `insertFolderSchema` accepts: a folder without `id` and timestamps. */
  datatype InsertFolder = InsertFolder(name: string, parentId: Option<int>, userId: UserId)

  /** What `insertFileSchema` accepts: a file without `id` and timestamps. */
  datatype InsertFile = InsertFile(
    name: string,
    originalName: string,
    mimeType: string,
    size: int,
    path: string,
    folderId: Option<int>,
    userId: UserId,
    isStarred: Field<Option<bool>>,
    isTrashed: Field<Option<bool>>)

  /** `Partial<InsertFolder>`; `updatedAt` is left out because every update overwrites it. */
  datatype FolderPatch = FolderPatch(
    id: Field<int>,
    name: Field<string>,
    parentId: Field<Option<int>>,
    userId: Field<UserId>,
    createdAt: Field<Option<int>>)

  /** `Partial<InsertFile>`; `updatedAt` is left out because every update overwrites it. */
  datatype FilePatch = FilePatch(
    id: Field<int>,
    name: Field<string>,
    originalName: Field<string>,
    mimeType: Field<string>,
    size: Field<int>,
    path: Field<string>,
    folderId: Field<Option<int>>,
    userId: Field<UserId>,
    isStarred: Field<Option<bool>>,
    isTrashed: Field<Option<bool>>,
    createdAt: Field<Option<int>>)

  const NoFileChanges := FilePatch(Absent, Absent, Absent, Absent, Absent, Absent, Absent, Absent, Absent, Absent, Absent)
  const NoFolderChanges := FolderPatch(Absent, Absent, Absent, Absent, Absent)

  /** The values the `files` columns can hold: varchar lengths and integer ranges. */
  predicate FileFitsColumns(f: File) {
    && |f.name| <= FileNameMaxLength
    && |f.originalName| <= FileNameMaxLength
    && |f.mimeType| <= MimeTypeMaxLength
    && |f.path| <= PathMaxLength
    && IsInt4(f.id) && IsInt4(f.size) && IsInt4OrNull(f.folderId)
  }

  /** The values the `folders` columns can hold. */
  predicate FolderFitsColumns(f: Folder) {
    |f.name| <= FolderNameMaxLength && IsInt4(f.id) && IsInt4OrNull(f.parentId)
  }

  /** Every character of `s` is a space. */
  predicate AllSpaces(s: string) {
    s == [] || (s[0] == ' ' && AllSpaces(s[1..]))
  }

  /** `t` is `s` with some trailing spaces cut off. */
  predicate CutSpaces(t: string, s: string) {
    |t| <= |s| && t == s[..|t|] && AllSpaces(s[|t|..])
  }

  /**
   * Assigning a string to a `varchar(max)` column. PostgreSQL counts
   * characters; a longer string is an error unless every character past
   * `max` is a space, and then the string is cut to `max`.
   */
  function StoreVarchar(s: string, max: nat): (r: Option<string>)
    ensures r.Some? <==> |s| <= max || AllSpaces(s[max..])
    ensures r.Some? ==> |r.value| <= max && CutSpaces(r.value, s)
    ensures |s| <= max ==> r == Some(s)
  {
    if |s| <= max then Some(s)
    else if AllSpaces(s[max..]) then Some(s[..max])
    else None
  }

  /**
   * The row PostgreSQL stores when it is asked to write `f` to `files`:
   * `None` when a value is out of its `integer` range or too long for its
   * varchar; a text value that is too long only by spaces is cut.
   */
  function StoreFile(f: File): (r: Option<File>)
    ensures r.Some? ==> FileFitsColumns(r.value)
    ensures FileFitsColumns(f) ==> r == Some(f)
  {
    if !(IsInt4(f.id) && IsInt4(f.size) && IsInt4OrNull(f.folderId)) then None
    else
      match (StoreVarchar(f.name, FileNameMaxLength), StoreVarchar(f.originalName, FileNameMaxLength),
             StoreVarchar(f.mimeType, MimeTypeMaxLength), StoreVarchar(f.path, PathMaxLength))
      case (Some(name), Some(originalName), Some(mimeType), Some(path)) =>
        Some(f.(name := name, originalName := originalName, mimeType := mimeType, path := path))
      case _ => None
  }

  /**
   * A write to `files` is refused exactly when an integer is out of range
   * or a text value is too long by more than spaces; otherwise only the
   * text columns can differ, each cut by trailing spaces at most.
   */
  lemma StoreFileCutsOnlySpaces(f: File)
    ensures StoreFile(f).Some? <==>
      && IsInt4(f.id) && IsInt4(f.size) && IsInt4OrNull(f.folderId)
      && (|f.name| <= FileNameMaxLength || AllSpaces(f.name[FileNameMaxLength..]))
      && (|f.originalName| <= FileNameMaxLength || AllSpaces(f.originalName[FileNameMaxLength..]))
      && (|f.mimeType| <= MimeTypeMaxLength || AllSpaces(f.mimeType[MimeTypeMaxLength..]))
      && (|f.path| <= PathMaxLength || AllSpaces(f.path[PathMaxLength..]))
    ensures StoreFile(f).Some? ==> var g := StoreFile(f).value;
      && g.(name := f.name, originalName := f.originalName, mimeType := f.mimeType, path := f.path) == f
      && CutSpaces(g.name, f.name) && CutSpaces(g.originalName, f.originalName)
      && CutSpaces(g.mimeType, f.mimeType) && CutSpaces(g.path, f.path)
  {
  }

  /** The row PostgreSQL stores when it is asked to write `f` to `folders`. */
  function StoreFolder(f: Folder): (r: Option<Folder>)
    ensures r.Some? ==> FolderFitsColumns(r.value)
    ensures FolderFitsColumns(f) ==> r == Some(f)
  {
    if !(IsInt4(f.id) && IsInt4OrNull(f.parentId)) then None
    else
      match StoreVarchar(f.name, FolderNameMaxLength)
      case Some(name) => Some(f.(name := name))
      case None => None
  }

  /** A write to `folders` is refused exactly when a value does not fit; a name too long only by spaces is cut. */
  lemma StoreFolderCutsOnlySpaces(f: Folder)
    ensures StoreFolder(f).Some? <==>
      IsInt4(f.id) && IsInt4OrNull(f.parentId) && (|f.name| <= FolderNameMaxLength || AllSpaces(f.name[FolderNameMaxLength..]))
    ensures StoreFolder(f).Some? ==>
      StoreFolder(f).value.(name := f.name) == f && CutSpaces(StoreFolder(f).value.name, f.name)
  {
  }

  /**
   * The length and range checks `insertFileSchema.parse` applies. The
   * schema's `max` counts JavaScript `length`, in UTF-16 code units.
   */
  predicate InsertFileAccepted(n: InsertFile) {
    && JsText.Utf16Length(n.name) <= FileNameMaxLength
    && JsText.Utf16Length(n.originalName) <= FileNameMaxLength
    && JsText.Utf16Length(n.mimeType) <= MimeTypeMaxLength
    && JsText.Utf16Length(n.path) <= PathMaxLength
    && IsInt4(n.size) && IsInt4OrNull(n.folderId)
  }

  /** The length and range checks `insertFolderSchema.parse` applies. */
  predicate InsertFolderAccepted(n: InsertFolder) {
    JsText.Utf16Length(n.name) <= FolderNameMaxLength && IsInt4OrNull(n.parentId)
  }

  /*
   * PostgreSQL converts every parameter of a statement to the type of the
   * column it meets before it runs the statement: an integer parameter
   * outside `integer` is refused then, before any row is read and before
   * the `serial` sequence is asked for a value.
   */

  /** The integer values of an insert into `files` bind. */
  predicate InsertFileBinds(n: InsertFile) {
    IsInt4(n.size) && IsInt4OrNull(n.folderId)
  }

  /** The integer value of an insert into `folders` binds. */
  predicate InsertFolderBinds(n: InsertFolder) {
    IsInt4OrNull(n.parentId)
  }

  /** Every integer value an update of `files` sets binds. */
  predicate FilePatchBinds(p: FilePatch) {
    && (p.id.Given? ==> IsInt4(p.id.value))
    && (p.size.Given? ==> IsInt4(p.size.value))
    && (p.folderId.Given? ==> IsInt4OrNull(p.folderId.value))
  }

  /** Every integer value an update of `folders` sets binds. */
  predicate FolderPatchBinds(p: FolderPatch) {
    && (p.id.Given? ==> IsInt4(p.id.value))
    && (p.parentId.Given? ==> IsInt4OrNull(p.parentId.value))
  }

  /** The row the database stores for an insert: the store assigns `id`; the flags default to false; both timestamps are now. */
  function FileRow(n: InsertFile, id: int, now: int): File {
    File(id, n.name, n.originalName, n.mimeType, n.size, n.path, n.folderId, n.userId,
         n.isStarred.Or(Some(false)), n.isTrashed.Or(Some(false)), Some(now), Some(now))
  }

  function FolderRow(n: InsertFolder, id: int, now: int): Folder {
    Folder(id, n.name, n.parentId, n.userId, Some(now), Some(now))
  }

  /** `set({ ...data, updatedAt: new Date() })`: every given property replaces the column, `updatedAt` becomes now. */
  function PatchFile(f: File, p: FilePatch, now: int): File {
    File(p.id.Or(f.id), p.name.Or(f.name), p.originalName.Or(f.originalName),
         p.mimeType.Or(f.mimeType), p.size.Or(f.size), p.path.Or(f.path),
         p.folderId.Or(f.folderId), p.userId.Or(f.userId), p.isStarred.Or(f.isStarred),
         p.isTrashed.Or(f.isTrashed), p.createdAt.Or(f.createdAt), Some(now))
  }

  function PatchFolder(f: Folder, p: FolderPatch, now: int): Folder {
    Folder(p.id.Or(f.id), p.name.Or(f.name), p.parentId.Or(f.parentId), p.userId.Or(f.userId),
           p.createdAt.Or(f.createdAt), Some(now))
  }

  /**
   * What the insert schema lets through fits the table: under any `integer`
   * id the row is stored exactly as given, nothing cut.
   */
  lemma AcceptedInsertIsStoredAsGiven(n: InsertFile, id: int, now: int)
    requires IsInt4(id) && InsertFileAccepted(n)
    ensures FileFitsColumns(FileRow(n, id, now)) && StoreFile(FileRow(n, id, now)) == Some(FileRow(n, id, now))
  {
  }

  lemma AcceptedFolderIsStoredAsGiven(n: InsertFolder, id: int, now: int)
    requires IsInt4(id) && InsertFolderAccepted(n)
    ensures FolderFitsColumns(FolderRow(n, id, now)) && StoreFolder(FolderRow(n, id, now)) == Some(FolderRow(n, id, now))
  {
  }

  /**
   * The converse fails: the schema counts UTF-16 code units and the column
   * counts characters, so a name of 200 characters outside the Basic
   * Multilingual Plane fits `varchar(255)` but is refused by the schema.
   */
  lemma SchemaIsStricterThanColumns()
    ensures var name := seq(200, _ => '\U{1F600}');
      var n := InsertFile(name, name, "image/png", 10, "uploads/1-x", None, "u", Absent, Absent);
      FileFitsColumns(FileRow(n, 1, 0)) && !InsertFileAccepted(n)
  {
    var name := seq(200, _ => '\U{1F600}');
    JsText.AstralLength(name);
  }

  /** A name over 255 characters only by trailing spaces is stored cut to 255. */
  lemma TrailingSpacesAreCut(f: File)
    requires IsInt4(f.id) && IsInt4(f.size) && IsInt4OrNull(f.folderId)
    requires |f.originalName| <= FileNameMaxLength && |f.mimeType| <= MimeTypeMaxLength && |f.path| <= PathMaxLength
    requires |f.name| > FileNameMaxLength && AllSpaces(f.name[FileNameMaxLength..])
    ensures StoreFile(f) == Some(f.(name := f.name[..FileNameMaxLength]))
  {
  }

  /** A new file is neither starred nor trashed unless the insert says so. */
  lemma NewFileFlags(n: InsertFile, id: int, now: int)
    ensures n.isStarred.Absent? ==> FileRow(n, id, now).isStarred == Some(false)
    ensures n.isTrashed.Absent? ==> FileRow(n, id, now).isTrashed == Some(false)
  {
  }

  /** An update that gives no property still refreshes `updatedAt`, and changes nothing else. */
  lemma EmptyFilePatch(f: File, now: int)
    ensures PatchFile(f, NoFileChanges, now) == f.(updatedAt := Some(now))
  {
  }
}
