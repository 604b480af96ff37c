/**
 * `FileStorage`: the queries over the `files` table and the writes to it.
 * Every listing filters the rows by a selection, sorts them by a column and
 * returns the window `[(page - 1) * limit, +limit)`; every count re-applies
 * the selection of its listing; the storage a user has used is the sum of
 * the sizes of their files that are not in the trash.
 */
module FileStorage {
  import opened Wrappers
  import opened Schema
  import Ordering
  import Ilike

  /** The `WHERE` clause of each listing and count. */
  datatype Selection =
    | InFolder(folderId: Option<int>)  // getFilesByFolder
    | Recent                           // getRecentFiles
    | Starred                          // getStarredFiles
    | Trash                            // getTrashedFiles
    | Search(query: string)            // searchFiles

  /** The `ILIKE` pattern of a search. */
  function SearchPattern(query: string): string {
    "%" + query + "%"
  }

  /** Whether row `f` satisfies the selection for `userId`. A NULL flag equals neither true nor false. */
  predicate Matches(sel: Selection, userId: UserId, f: File) {
    && f.userId == userId
    && match sel
       case InFolder(folderId) =>
         f.isTrashed == Some(false) && if IsTruthy(folderId) then f.folderId == folderId else f.folderId.None?
       case Recent => f.isTrashed == Some(false)
       case Starred => f.isStarred == Some(true) && f.isTrashed == Some(false)
       case Trash => f.isTrashed == Some(true)
       case Search(q) =>
         && f.isTrashed == Some(false)
         && (Ilike.Like(f.name, SearchPattern(q)) || Ilike.Like(f.mimeType, SearchPattern(q)))
  }

  /** The rows that satisfy the selection, in table order. */
  function Select(rows: seq<File>, sel: Selection, userId: UserId): (r: seq<File>)
    ensures |r| <= |rows|
    ensures forall f :: f in r <==> f in rows && Matches(sel, userId, f)
  {
    if rows == [] then []
    else (if Matches(sel, userId, rows[0]) then [rows[0]] else []) + Select(rows[1..], sel, userId)
  }

  /** `SELECT count(*) FROM files WHERE <selection>`. */
  function Count(rows: seq<File>, sel: Selection, userId: UserId): (n: nat)
    ensures n <= |rows|
  {
    if rows == [] then 0
    else (if Matches(sel, userId, rows[0]) then 1 else 0) + Count(rows[1..], sel, userId)
  }

  /** A count counts exactly the rows its listing selects, whatever the pagination. */
  lemma {:induction false} CountIsSelectionSize(rows: seq<File>, sel: Selection, userId: UserId)
    ensures Count(rows, sel, userId) == |Select(rows, sel, userId)|
  {
    if rows != [] {
      CountIsSelectionSize(rows[1..], sel, userId);
    }
  }

  lemma {:induction false} SelectConcat(a: seq<File>, b: seq<File>, sel: Selection, userId: UserId)
    ensures Select(a + b, sel, userId) == Select(a, sel, userId) + Select(b, sel, userId)
  {
    if a == [] {
      assert a + b == b;
    } else {
      assert (a + b)[1..] == a[1..] + b;
      SelectConcat(a[1..], b, sel, userId);
    }
  }

  // ----- Sorting and paging -----

  datatype SortColumn = Name | Size | CreatedAt | UpdatedAt

  function SortKey(column: SortColumn, f: File): Ordering.Key {
    match column
    case Name => Ordering.Text(f.name)
    case Size => Ordering.Number(f.size)
    case CreatedAt => Ordering.Stamp(f.createdAt)
    case UpdatedAt => Ordering.Stamp(f.updatedAt)
  }

  function ColumnKey(column: SortColumn): File -> Ordering.Key {
    f => SortKey(column, f)
  }

  /** `PaginationOptions`; a `None` property is `undefined` and takes the listing's default. */
  datatype PaginationOptions = PaginationOptions(
    page: Option<int>,
    limit: Option<int>,
    sortBy: Option<string>,
    sortOrder: Option<string>)

  /** No options at all: how `DatabaseStorage` calls every listing. */
  const NoOptions := PaginationOptions(None, None, None, None)

  /** The defaults a listing destructures its options with, and the column an unknown `sortBy` falls back to. */
  datatype ListingDefaults = ListingDefaults(limit: int, sortBy: string, sortOrder: string, fallback: SortColumn)

  function DefaultsFor(sel: Selection): ListingDefaults {
    match sel
    case InFolder(_) => ListingDefaults(50, "name", "asc", Name)
    case Recent => ListingDefaults(20, "updatedAt", "desc", UpdatedAt)
    case Starred => ListingDefaults(50, "name", "asc", UpdatedAt)
    case Trash => ListingDefaults(50, "updatedAt", "desc", UpdatedAt)
    case Search(_) => ListingDefaults(50, "name", "asc", UpdatedAt)
  }

  predicate IsKnownColumn(sortBy: string) {
    sortBy == "name" || sortBy == "size" || sortBy == "createdAt" || sortBy == "updatedAt"
  }

  function ColumnFor(sortBy: string, fallback: SortColumn): SortColumn {
    if sortBy == "name" then Name
    else if sortBy == "size" then Size
    else if sortBy == "createdAt" then CreatedAt
    else if sortBy == "updatedAt" then UpdatedAt
    else fallback
  }

  /**
   * `a * b`, as `|b|` additions of `a`. Listings compute their offset with
   * it, so that proofs about a page see the product only through
   * `ProductIsMul`, where they ask for it.
   */
  function Product(a: int, b: int): int
    decreases if b < 0 then -b else b
  {
    if b == 0 then 0
    else if b > 0 then Product(a, b - 1) + a
    else Product(a, b + 1) - a
  }

  lemma {:induction false} ProductIsMul(a: int, b: int)
    ensures Product(a, b) == a * b
    decreases if b < 0 then -b else b
  {
    if b > 0 {
      ProductIsMul(a, b - 1);
    } else if b < 0 {
      ProductIsMul(a, b + 1);
    }
  }

  /** A listing's options with the defaults filled in. */
  datatype Query = Query(page: int, limit: int, column: SortColumn, descending: bool) {
    /** `(page - 1) * limit`. */
    function Offset(): int {
      Product(page - 1, limit)
    }
  }

  /** A listing's options, destructured with the defaults of its view. */
  function Resolve(sel: Selection, opts: PaginationOptions): Query {
    var d := DefaultsFor(sel);
    Query(opts.page.GetOr(1), opts.limit.GetOr(d.limit),
          ColumnFor(opts.sortBy.GetOr(d.sortBy), d.fallback),
          opts.sortOrder.GetOr(d.sortOrder) == "desc")
  }

  /**
   * The options a listing destructures: a given page or limit is used as
   * it is; a missing one is page 1 and 50 rows (Recent: 20). Without
   * `sortBy`, Recent and Trash sort by `updatedAt` and the others by
   * `name`; a known column name selects that column and an unknown one
   * falls back to `name` in a folder and to `updatedAt` elsewhere. Without
   * `sortOrder`, Recent and Trash sort descending; otherwise only `"desc"`
   * sorts descending.
   */
  lemma ResolveFollowsOptions(sel: Selection, opts: PaginationOptions)
    ensures var q := Resolve(sel, opts);
      && (q.page == if opts.page.Some? then opts.page.value else 1)
      && (q.limit == if opts.limit.Some? then opts.limit.value else if sel.Recent? then 20 else 50)
      && (opts.sortBy.None? ==> q.column == (if sel.Recent? || sel.Trash? then UpdatedAt else Name))
      && (opts.sortBy == Some("name") ==> q.column == Name)
      && (opts.sortBy == Some("size") ==> q.column == Size)
      && (opts.sortBy == Some("createdAt") ==> q.column == CreatedAt)
      && (opts.sortBy == Some("updatedAt") ==> q.column == UpdatedAt)
      && (opts.sortBy.Some? && !IsKnownColumn(opts.sortBy.value) ==> q.column == (if sel.InFolder? then Name else UpdatedAt))
      && (opts.sortOrder.None? ==> (q.descending <==> sel.Recent? || sel.Trash?))
      && (opts.sortOrder.Some? ==> (q.descending <==> opts.sortOrder.value == "desc"))
  {
  }

  /** `ORDER BY` applied to the selected rows. */
  function Ordered(rows: seq<File>, sel: Selection, userId: UserId, column: SortColumn, descending: bool): seq<File> {
    Ordering.SortBy(Select(rows, sel, userId), ColumnKey(column), descending)
  }

  /** The `ORDER BY` result is sorted by the column and is a permutation of the selected rows. */
  lemma OrderedIsSortedPermutation(rows: seq<File>, sel: Selection, userId: UserId, column: SortColumn, descending: bool)
    ensures var r := Ordered(rows, sel, userId, column, descending);
      && Ordering.SortedBy(r, ColumnKey(column), descending)
      && multiset(r) == multiset(Select(rows, sel, userId))
  {
    Ordering.SortByIsSortedPermutation(Select(rows, sel, userId), ColumnKey(column), descending);
  }

  function Min(a: int, b: int): int {
    if a <= b then a else b
  }

  /** `.limit(limit).offset(offset)`. */
  function Window<T>(s: seq<T>, offset: nat, limit: nat): (r: seq<T>)
    ensures |r| == if offset >= |s| then 0 else Min(limit, |s| - offset)
    ensures forall i :: 0 <= i < |r| ==> r[i] == s[offset + i]
  {
    if offset >= |s| then [] else s[offset..offset + Min(limit, |s| - offset)]
  }

  /**
   * Why the database refuses a listing or a count: a negative `LIMIT` or
   * `OFFSET`, or a folder id outside the range of the `integer` column
   * `folder_id` it is compared with.
   */
  datatype QueryError = NegativeLimit | NegativeOffset | FolderOutOfRange

  /**
   * The selection's parameter binds: a truthy folder id is compared with
   * `folder_id`, and PostgreSQL refuses a value outside `integer` before it
   * reads any row. A falsy one becomes `IS NULL` and binds nothing.
   */
  predicate FolderIdBinds(sel: Selection) {
    sel.InFolder? && IsTruthy(sel.folderId) ==> IsInt4(sel.folderId.value)
  }

  /**
   * One page of a listing: `getFilesByFolder`, `getRecentFiles`,
   * `getStarredFiles`, `getTrashedFiles` or `searchFiles`, by selection.
   */
  function List(rows: seq<File>, userId: UserId, sel: Selection, opts: PaginationOptions): (r: Result<seq<File>, QueryError>)
    ensures r.Success? <==> FolderIdBinds(sel) && Resolve(sel, opts).limit >= 0 && Resolve(sel, opts).Offset() >= 0
    ensures !FolderIdBinds(sel) ==> r == Failure(FolderOutOfRange)
    ensures r.Success? ==> |r.value| <= Resolve(sel, opts).limit
    ensures r.Success? ==> forall f :: f in r.value ==> f in rows && Matches(sel, userId, f)
  {
    var q := Resolve(sel, opts);
    var offset := q.Offset();
    if !FolderIdBinds(sel) then Failure(FolderOutOfRange)
    else if q.limit < 0 then Failure(NegativeLimit)
    else if offset < 0 then Failure(NegativeOffset)
    else
      var sorted := Ordered(rows, sel, userId, q.column, q.descending);
      var page := Window(sorted, offset, q.limit);
      OrderedIsSortedPermutation(rows, sel, userId, q.column, q.descending);
      assert forall f :: f in page ==> f in multiset(sorted);
      Success(page)
  }

  /** A page is sorted by the requested column, in the requested direction. */
  lemma PageIsSorted(rows: seq<File>, userId: UserId, sel: Selection, opts: PaginationOptions)
    requires List(rows, userId, sel, opts).Success?
    ensures var q := Resolve(sel, opts);
      Ordering.SortedBy(List(rows, userId, sel, opts).value, ColumnKey(q.column), q.descending)
  {
    var q := Resolve(sel, opts);
    var sorted := Ordered(rows, sel, userId, q.column, q.descending);
    var page := List(rows, userId, sel, opts).value;
    var offset := q.Offset();
    OrderedIsSortedPermutation(rows, sel, userId, q.column, q.descending);
    forall i, j | 0 <= i < j < |page|
      ensures Ordering.Precedes(SortKey(q.column, page[i]), SortKey(q.column, page[j]), q.descending)
    {
      assert page[i] == sorted[offset + i] && page[j] == sorted[offset + j];
    }
  }

  /** Sorting neither adds nor drops rows. */
  lemma OrderedSize(rows: seq<File>, userId: UserId, sel: Selection, column: SortColumn, descending: bool)
    ensures |Ordered(rows, sel, userId, column, descending)| == Count(rows, sel, userId)
  {
    CountIsSelectionSize(rows, sel, userId);
  }

  /** The size of a page follows from the count: whatever of `limit` remains past the offset. */
  lemma PageSizeFromCount(rows: seq<File>, userId: UserId, sel: Selection, opts: PaginationOptions)
    requires List(rows, userId, sel, opts).Success?
    ensures var q, n := Resolve(sel, opts), Count(rows, sel, userId);
      |List(rows, userId, sel, opts).value| == if q.Offset() >= n then 0 else Min(q.limit, n - q.Offset())
  {
    var q := Resolve(sel, opts);
    var sorted := Ordered(rows, sel, userId, q.column, q.descending);
    assert |sorted| == Count(rows, sel, userId) by {
      OrderedSize(rows, userId, sel, q.column, q.descending);
    }
    assert List(rows, userId, sel, opts) == Success(Window(sorted, q.Offset(), q.limit)) by {
      ListIsWindow(rows, userId, sel, opts);
    }
  }

  /** No listing but Trash shows a trashed file, and Trash shows nothing else. */
  lemma TrashOnlyInTrash(rows: seq<File>, userId: UserId, sel: Selection, opts: PaginationOptions)
    requires List(rows, userId, sel, opts).Success?
    ensures forall f :: f in List(rows, userId, sel, opts).value ==>
      f.userId == userId && (f.isTrashed == Some(true) <==> sel.Trash?)
  {
  }

  predicate OnPage(rows: seq<File>, userId: UserId, sel: Selection, opts: PaginationOptions, f: File) {
    var r := List(rows, userId, sel, opts);
    r.Success? && f in r.value
  }

  /**
   * Every stored row the selection matches is on some page, for any
   * positive limit, when no other matching row shares its sort key. Each page is its
   * own query, and PostgreSQL may order rows with equal keys differently
   * from one query to the next, so a row tied with another can be missed.
   */
  lemma EveryMatchIsOnAPage(rows: seq<File>, userId: UserId, sel: Selection, opts: PaginationOptions, f: File)
    requires f in rows && FileFitsColumns(f) && Matches(sel, userId, f)
    requires opts.limit.GetOr(DefaultsFor(sel).limit) > 0
    requires forall g :: g in rows && Matches(sel, userId, g) && g != f ==>
      SortKey(Resolve(sel, opts).column, g) != SortKey(Resolve(sel, opts).column, f)
    ensures exists page :: page >= 1 && OnPage(rows, userId, sel, opts.(page := Some(page)), f)
  {
    var q := Resolve(sel, opts);
    var sorted := Ordered(rows, sel, userId, q.column, q.descending);
    OrderedIsSortedPermutation(rows, sel, userId, q.column, q.descending);
    assert f in multiset(sorted);
    var k :| 0 <= k < |sorted| && sorted[k] == f;
    var page := k / q.limit + 1;
    PageContainsIndex(sel, opts, k);
    RowAtIndexIsListed(rows, userId, sel, opts.(page := Some(page)), k, f);
  }

  /** Page `k / limit + 1` covers index `k` of the ordered selection. */
  lemma PageContainsIndex(sel: Selection, opts: PaginationOptions, k: nat)
    requires Resolve(sel, opts).limit > 0
    ensures var q := Resolve(sel, opts);
      var q' := Resolve(sel, opts.(page := Some(k / q.limit + 1)));
      && k / q.limit >= 0
      && 0 <= q'.Offset() <= k < q'.Offset() + q'.limit
      && q'.column == q.column && q'.descending == q.descending
  {
    var q := Resolve(sel, opts);
    PageOfIndex(k, q.limit);
    ResolveWithPage(sel, opts, k / q.limit + 1);
    ProductIsMul(k / q.limit, q.limit);
  }

  lemma RowAtIndexIsListed(rows: seq<File>, userId: UserId, sel: Selection, opts: PaginationOptions, k: nat, f: File)
    requires FolderIdBinds(sel)
    requires var q := Resolve(sel, opts);
      && 0 <= q.Offset() <= k < q.Offset() + q.limit
      && k < |Ordered(rows, sel, userId, q.column, q.descending)|
      && f == Ordered(rows, sel, userId, q.column, q.descending)[k]
    ensures OnPage(rows, userId, sel, opts, f)
  {
    var q := Resolve(sel, opts);
    var sorted := Ordered(rows, sel, userId, q.column, q.descending);
    ListIsWindow(rows, userId, sel, opts);
    WindowHas(sorted, q.Offset(), q.limit, k);
  }

  lemma PageOfIndex(k: nat, limit: nat)
    requires limit > 0
    ensures 0 <= (k / limit) * limit <= k < (k / limit) * limit + limit
  {
  }

  lemma ResolveWithPage(sel: Selection, opts: PaginationOptions, page: int)
    ensures Resolve(sel, opts.(page := Some(page))) == Resolve(sel, opts).(page := page)
  {
  }

  lemma ListIsWindow(rows: seq<File>, userId: UserId, sel: Selection, opts: PaginationOptions)
    requires FolderIdBinds(sel)
    requires Resolve(sel, opts).limit >= 0 && Resolve(sel, opts).Offset() >= 0
    ensures var q := Resolve(sel, opts);
      List(rows, userId, sel, opts) == Success(Window(Ordered(rows, sel, userId, q.column, q.descending), q.Offset(), q.limit))
  {
  }

  lemma WindowHas<T>(s: seq<T>, offset: nat, limit: nat, k: nat)
    requires offset <= k < offset + limit && k < |s|
    ensures s[k] in Window(s, offset, limit)
  {
    assert Window(s, offset, limit)[k - offset] == s[k];
  }

  /**
   * With no options, as `DatabaseStorage` calls them, every listing whose
   * folder id binds answers with the first page of 50 (Recent: 20): Recent
   * and Trash newest `updatedAt` first, the others by name, A to Z.
   */
  lemma DefaultListing(rows: seq<File>, userId: UserId, sel: Selection)
    ensures List(rows, userId, sel, NoOptions).Success? <==> FolderIdBinds(sel)
    ensures var r := List(rows, userId, sel, NoOptions);
      r.Success? ==>
      && |r.value| == Min(if sel.Recent? then 20 else 50, Count(rows, sel, userId))
      && Ordering.SortedBy(r.value, ColumnKey(if sel.Recent? || sel.Trash? then UpdatedAt else Name), sel.Recent? || sel.Trash?)
  {
    DefaultPaging(sel);
    var q := Resolve(sel, NoOptions);
    var r := List(rows, userId, sel, NoOptions);
    if r.Success? {
      PageSizeFromCount(rows, userId, sel, NoOptions);
      FirstPageArithmetic(|r.value|, Count(rows, sel, userId), q.Offset(), q.limit);
      PageIsSorted(rows, userId, sel, NoOptions);
    }
  }

  /** Without options a listing starts at offset 0 with the view's default limit, column and direction. */
  lemma DefaultPaging(sel: Selection)
    ensures Resolve(sel, NoOptions).Offset() == 0
    ensures Resolve(sel, NoOptions).limit == if sel.Recent? then 20 else 50
    ensures Resolve(sel, NoOptions).column == if sel.Recent? || sel.Trash? then UpdatedAt else Name
    ensures Resolve(sel, NoOptions).descending == (sel.Recent? || sel.Trash?)
  {
    ProductIsMul(0, Resolve(sel, NoOptions).limit);
  }

  /** The first page's size from `PageSizeFromCount`'s formula, at offset 0. */
  lemma FirstPageArithmetic(size: int, n: nat, offset: int, limit: int)
    requires offset == 0 && limit >= 0
    requires size == if offset >= n then 0 else Min(limit, n - offset)
    ensures size == Min(limit, n)
  {
  }

  /**
   * For a query without `%`, `_` or `\`, a search finds the user's files
   * outside the trash whose name or MIME type contains the query, ignoring case.
   */
  lemma SearchFindsSubstrings(q: string, userId: UserId, f: File)
    requires Ilike.NoPatternChars(q)
    ensures Matches(Search(q), userId, f) <==>
      && f.userId == userId && f.isTrashed == Some(false)
      && (Ilike.ContainsFolded(f.name, q) || Ilike.ContainsFolded(f.mimeType, q))
  {
    Ilike.SubstringSearch(f.name, q);
    Ilike.SubstringSearch(f.mimeType, q);
  }

  // ----- Counts -----

  /**
   * `getFilesCount`: dispatch on the view name; any other name counts My
   * Drive with `folderId || null`, which fails as its listing does for a
   * folder id outside `integer`.
   */
  function FilesCount(rows: seq<File>, userId: UserId, view: string, folderId: Option<int>): (r: Result<nat, QueryError>)
    ensures r.Failure? <==> !FolderIdBinds(ViewSelection(view, folderId))
    ensures r.Failure? ==> r.error == FolderOutOfRange
    ensures r.Success? ==> r.value == |Select(rows, ViewSelection(view, folderId), userId)|
  {
    var sel :=
      if view == "Recent" then Recent
      else if view == "Starred" then Starred
      else if view == "Trash" then Trash
      else InFolder(if IsTruthy(folderId) then folderId else None);
    CountIsSelectionSize(rows, sel, userId);
    SameFolder(rows, userId, folderId);
    if !FolderIdBinds(sel) then Failure(FolderOutOfRange) else Success(Count(rows, sel, userId))
  }

  /** The listing a view name stands for. */
  function ViewSelection(view: string, folderId: Option<int>): Selection {
    if view == "Recent" then Recent
    else if view == "Starred" then Starred
    else if view == "Trash" then Trash
    else InFolder(folderId)
  }

  /** `folderId || null` changes nothing: a falsy id already selects the root. */
  lemma SameFolder(rows: seq<File>, userId: UserId, folderId: Option<int>)
    ensures Select(rows, InFolder(if IsTruthy(folderId) then folderId else None), userId)
         == Select(rows, InFolder(folderId), userId)
  {
    var a := InFolder(if IsTruthy(folderId) then folderId else None);
    assert forall f :: Matches(a, userId, f) == Matches(InFolder(folderId), userId, f);
    SameMatchesSameSelect(rows, a, InFolder(folderId), userId);
  }

  lemma {:induction false} SameMatchesSameSelect(rows: seq<File>, a: Selection, b: Selection, userId: UserId)
    requires forall f :: Matches(a, userId, f) == Matches(b, userId, f)
    ensures Select(rows, a, userId) == Select(rows, b, userId)
  {
    if rows != [] {
      SameMatchesSameSelect(rows[1..], a, b, userId);
    }
  }

  // ----- Storage used -----

  /** `reduce((total, file) => total + file.size, 0)`. */
  function SumSizes(rows: seq<File>): int {
    if rows == [] then 0 else rows[0].size + SumSizes(rows[1..])
  }

  lemma {:induction false} SumSizesConcat(a: seq<File>, b: seq<File>)
    ensures SumSizes(a + b) == SumSizes(a) + SumSizes(b)
  {
    if a == [] {
      assert a + b == b;
    } else {
      assert (a + b)[1..] == a[1..] + b;
      SumSizesConcat(a[1..], b);
    }
  }

  /** `getUserStorageUsed`: the sizes of the user's files that are not in the trash. */
  function StorageUsed(rows: seq<File>, userId: UserId): int {
    SumSizes(Select(rows, Recent, userId))
  }

  lemma SelectOne(f: File, sel: Selection, userId: UserId)
    ensures Select([f], sel, userId) == if Matches(sel, userId, f) then [f] else []
  {
    assert [f][1..] == [];
  }

  /** Writing row `i` as `g`: the selection changes only by what `rows[i]` and `g` contribute. */
  lemma SelectUpdate(rows: seq<File>, i: nat, g: File, sel: Selection, userId: UserId)
    requires i < |rows|
    ensures Select(rows[i := g], sel, userId)
         == Select(rows[..i], sel, userId) + Select([g], sel, userId) + Select(rows[i + 1..], sel, userId)
    ensures Select(rows, sel, userId)
         == Select(rows[..i], sel, userId) + Select([rows[i]], sel, userId) + Select(rows[i + 1..], sel, userId)
  {
    assert rows[i := g] == rows[..i] + [g] + rows[i + 1..];
    assert rows == rows[..i] + [rows[i]] + rows[i + 1..];
    SelectConcat(rows[..i] + [g], rows[i + 1..], sel, userId);
    SelectConcat(rows[..i], [g], sel, userId);
    SelectConcat(rows[..i] + [rows[i]], rows[i + 1..], sel, userId);
    SelectConcat(rows[..i], [rows[i]], sel, userId);
  }

  /** What one row adds to its owner's usage. */
  function Usage(f: File, userId: UserId): int {
    if Matches(Recent, userId, f) then f.size else 0
  }

  /** Rewriting one row changes a user's usage by the difference of what the old and new row add. */
  lemma StorageUsedAfterUpdate(rows: seq<File>, i: nat, g: File, userId: UserId)
    requires i < |rows|
    ensures StorageUsed(rows[i := g], userId) == StorageUsed(rows, userId) - Usage(rows[i], userId) + Usage(g, userId)
  {
    SelectUpdate(rows, i, g, Recent, userId);
    var a, b := Select(rows[..i], Recent, userId), Select(rows[i + 1..], Recent, userId);
    var x, y := Select([rows[i]], Recent, userId), Select([g], Recent, userId);
    SelectOne(g, Recent, userId);
    SelectOne(rows[i], Recent, userId);
    assert SumSizes(x) == Usage(rows[i], userId) by {
      if x != [] {
        assert x[1..] == [];
      }
    }
    assert SumSizes(y) == Usage(g, userId) by {
      if y != [] {
        assert y[1..] == [];
      }
    }
    SumSizesConcat(a + x, b);
    SumSizesConcat(a, x);
    SumSizesConcat(a + y, b);
    SumSizesConcat(a, y);
  }

  /** Moving a file to the trash frees exactly its size. */
  lemma TrashingFreesItsSize(rows: seq<File>, i: nat, now: int)
    requires i < |rows| && rows[i].isTrashed == Some(false)
    ensures var p := NoFileChanges.(isTrashed := Given(Some(true)));
      StorageUsed(rows[i := PatchFile(rows[i], p, now)], rows[i].userId)
        == StorageUsed(rows, rows[i].userId) - rows[i].size
  {
    var g := PatchFile(rows[i], NoFileChanges.(isTrashed := Given(Some(true))), now);
    StorageUsedAfterUpdate(rows, i, g, rows[i].userId);
  }

  /** A new file adds its size to its owner's usage unless it is in the trash. */
  lemma StorageUsedAfterInsert(rows: seq<File>, f: File, userId: UserId)
    ensures StorageUsed(rows + [f], userId)
         == StorageUsed(rows, userId) + (if f.userId == userId && f.isTrashed == Some(false) then f.size else 0)
  {
    SelectConcat(rows, [f], Recent, userId);
    SelectOne(f, Recent, userId);
    SumSizesConcat(Select(rows, Recent, userId), Select([f], Recent, userId));
  }

  // ----- The table and its writes -----

  predicate UniqueIds(rows: seq<File>) {
    forall i, j :: 0 <= i < j < |rows| ==> rows[i].id != rows[j].id
  }

  predicate HasId(rows: seq<File>, id: int) {
    exists j :: 0 <= j < |rows| && rows[j].id == id
  }

  predicate HasIdOtherThan(rows: seq<File>, id: int, i: nat) {
    exists j :: 0 <= j < |rows| && j != i && rows[j].id == id
  }

  /** The position of the row with this `id` and `userId`. */
  function IndexOf(rows: seq<File>, id: int, userId: UserId): (r: Option<nat>)
    ensures r.Some? ==> r.value < |rows| && rows[r.value].id == id && rows[r.value].userId == userId
    ensures r.None? ==> forall j :: 0 <= j < |rows| ==> !(rows[j].id == id && rows[j].userId == userId)
  {
    if rows == [] then None
    else if rows[0].id == id && rows[0].userId == userId then Some(0)
    else match IndexOf(rows[1..], id, userId)
      case None => None
      case Some(k) => Some(k + 1)
  }

  /**
   * `getFileById`: a row is returned only when both its `id` and its `userId`
   * match; an id outside `integer` makes the query throw.
   */
  function FileById(rows: seq<File>, id: int, userId: UserId): (r: Result<Option<File>, StoreError>)
    ensures r.Failure? <==> !IsInt4(id)
    ensures r.Failure? ==> r.error == IntegerOutOfRange
    ensures r.Success? && r.value.Some? ==> r.value.value in rows && r.value.value.id == id && r.value.value.userId == userId
    ensures r.Success? && r.value.None? ==> forall f :: f in rows ==> !(f.id == id && f.userId == userId)
  {
    if !IsInt4(id) then Failure(IntegerOutOfRange)
    else match IndexOf(rows, id, userId)
      case None => Success(None)
      case Some(i) => Success(Some(rows[i]))
  }

  /**
   * What an insert into the table answers: the integer values must bind,
   * the sequence value must fit `integer`, the values must fit their
   * columns (a value too long only by trailing spaces is cut) and the key
   * must be free. `createFile` does not run the insert schema; a record
   * that passed it is stored as given.
   */
  function InsertOutcome(rows: seq<File>, nextId: int, n: InsertFile, now: int): (r: Result<File, StoreError>)
    ensures !InsertFileBinds(n) ==> r == Failure(IntegerOutOfRange)
    ensures r.Success? <==> IsInt4(nextId) && StoreFile(FileRow(n, nextId, now)).Some? && !HasId(rows, nextId)
    ensures r.Success? ==> r.value.id == nextId && FileFitsColumns(r.value) && r.value == StoreFile(FileRow(n, nextId, now)).value
    ensures r.Success? && InsertFileAccepted(n) ==> r.value == FileRow(n, nextId, now)
  {
    if !InsertFileBinds(n) then Failure(IntegerOutOfRange)
    else if !IsInt4(nextId) then Failure(SequenceExhausted)
    else match StoreFile(FileRow(n, nextId, now))
      case None => Failure(ColumnConstraint)
      case Some(f) =>
        if HasId(rows, nextId) then Failure(DuplicateKey)
        else Success(f)
  }

  /** The `files` table, with the `serial` sequence that numbers new rows. */
  class FileTable {
    var rows: seq<File>
    var nextId: int

    ghost predicate Valid()
      reads this
    {
      UniqueIds(rows) && forall f :: f in rows ==> FileFitsColumns(f)
    }

    constructor ()
      ensures Valid() && rows == [] && nextId == 1
    {
      rows := [];
      nextId := 1;
    }

    /**
     * `createFile`: inserts the row and returns it. The sequence advances
     * on every attempt whose values bind, whether the insert then succeeds
     * or not.
     */
    method CreateFile(n: InsertFile, now: int) returns (r: Result<File, StoreError>)
      requires Valid()
      modifies this
      ensures Valid()
      ensures nextId == if InsertFileBinds(n) then old(nextId) + 1 else old(nextId)
      ensures r == InsertOutcome(old(rows), old(nextId), n, now)
      ensures r.Success? ==> rows == old(rows) + [r.value]
      ensures r.Failure? ==> rows == old(rows)
    {
      if !InsertFileBinds(n) {
        return Failure(IntegerOutOfRange);
      }
      var id := nextId;
      nextId := nextId + 1;
      if !IsInt4(id) {
        return Failure(SequenceExhausted);
      }
      var stored := StoreFile(FileRow(n, id, now));
      if stored.None? {
        return Failure(ColumnConstraint);
      }
      if HasId(rows, id) {
        return Failure(DuplicateKey);
      }
      rows := rows + [stored.value];
      r := Success(stored.value);
    }

    /**
     * `updateFile`: merges the patch into the one row whose `id` and
     * `userId` match and sets its `updatedAt`; `Success(None)` when no row
     * matches. When `id` or an integer value of the patch lies outside
     * `integer`, the statement fails before it reads any row. The merged
     * row is stored as the columns take it: refused when
     * a value does not fit, with over-long trailing spaces cut otherwise.
     * Every other row is left as it was.
     */
    method UpdateFile(id: int, userId: UserId, p: FilePatch, now: int) returns (r: Result<Option<File>, StoreError>)
      requires Valid()
      modifies this
      ensures Valid() && nextId == old(nextId) && |rows| == |old(rows)|
      ensures !(IsInt4(id) && FilePatchBinds(p)) ==> r == Failure(IntegerOutOfRange) && rows == old(rows)
      ensures IsInt4(id) && FilePatchBinds(p) && IndexOf(old(rows), id, userId).None? ==> r == Success(None) && rows == old(rows)
      ensures IsInt4(id) && FilePatchBinds(p) && IndexOf(old(rows), id, userId).Some? ==>
        var i := IndexOf(old(rows), id, userId).value;
        var g := StoreFile(PatchFile(old(rows)[i], p, now));
        if g.Some? && !HasIdOtherThan(old(rows), g.value.id, i)
        then r == Success(Some(g.value)) && rows == old(rows)[i := g.value]
        else r.Failure? && rows == old(rows)
      ensures forall j :: 0 <= j < |rows| && !(old(rows)[j].id == id && old(rows)[j].userId == userId) ==>
        rows[j] == old(rows)[j]
    {
      if !IsInt4(id) || !FilePatchBinds(p) {
        return Failure(IntegerOutOfRange);
      }
      match IndexOf(rows, id, userId) {
        case None =>
          r := Success(None);
        case Some(i) =>
          var stored := StoreFile(PatchFile(rows[i], p, now));
          if stored.None? {
            r := Failure(ColumnConstraint);
          } else if HasIdOtherThan(rows, stored.value.id, i) {
            r := Failure(DuplicateKey);
          } else {
            var g := stored.value;
            assert forall j :: 0 <= j < |rows| && j != i ==> rows[j].id != g.id;
            rows := rows[i := g];
            r := Success(Some(g));
          }
      }
    }

    /**
     * `deleteFile`: removes the row whose `id` and `userId` match; true iff
     * there was one. An id outside `integer` makes the statement throw.
     */
    method DeleteFile(id: int, userId: UserId) returns (r: Result<bool, StoreError>)
      requires Valid()
      modifies this
      ensures Valid() && nextId == old(nextId)
      ensures !IsInt4(id) ==> r == Failure(IntegerOutOfRange)
      ensures IsInt4(id) ==> r == Success(IndexOf(old(rows), id, userId).Some?)
      ensures r == Success(true) ==>
        var i := IndexOf(old(rows), id, userId).value;
        rows == old(rows)[..i] + old(rows)[i + 1..]
      ensures r != Success(true) ==> rows == old(rows)
      ensures forall f :: f in rows ==> !(f.id == id && f.userId == userId)
    {
      if !IsInt4(id) {
        assert forall f :: f in rows ==> FileFitsColumns(f);
        return Failure(IntegerOutOfRange);
      }
      match IndexOf(rows, id, userId) {
        case None =>
          r := Success(false);
        case Some(i) =>
          ghost var before := rows;
          rows := rows[..i] + rows[i + 1..];
          assert forall j :: 0 <= j < |rows| ==> rows[j] == if j < i then before[j] else before[j + 1];
          r := Success(true);
      }
    }
  }

  /** An update of another user's row, that does not hand the row to this user, leaves this user's listings as they were. */
  lemma UpdateKeepsOtherUsersListings(rows: seq<File>, i: nat, g: File, sel: Selection, userId: UserId)
    requires i < |rows| && rows[i].userId != userId && g.userId != userId
    ensures Select(rows[i := g], sel, userId) == Select(rows, sel, userId)
  {
    SelectUpdate(rows, i, g, sel, userId);
    SelectOne(g, sel, userId);
    SelectOne(rows[i], sel, userId);
  }

  /** Deleting another user's row leaves this user's listings as they were. */
  lemma DeleteKeepsOtherUsersListings(rows: seq<File>, i: nat, sel: Selection, userId: UserId)
    requires i < |rows| && rows[i].userId != userId
    ensures Select(rows[..i] + rows[i + 1..], sel, userId) == Select(rows, sel, userId)
  {
    var before, after := rows[..i], rows[i + 1..];
    assert rows == before + ([rows[i]] + after);
    assert Select([rows[i]] + after, sel, userId) == Select(after, sel, userId) by {
      SelectConcat([rows[i]], after, sel, userId);
      SelectOne(rows[i], sel, userId);
    }
    SelectConcat(before, [rows[i]] + after, sel, userId);
    SelectConcat(before, after, sel, userId);
  }
}
