# drive-clone core, modelled in Dafny

drive-clone is a small cloud-drive web application. Users upload files,
arrange them in folders, star them, move them to the trash and search them.
This project models its core:

- the `folders` and `files` tables of the Drizzle schema, with their column
  limits and the `insertFileSchema` / `insertFolderSchema` checks;
- `FileStorage`, which lists files in five views (a folder, recent, starred,
  trash, search), counts them, sums the storage in use and writes the
  `files` table;
- `FolderStorage`, which lists one folder's children by name and writes the
  `folders` table;
- the `POST` (upload) and `GET` handlers of `/api/files`;
- the checks that the create-folder dialog runs on submit;
- the page links that the file pagination bar draws;
- the requests that the context menu sends for rename, delete, star and
  download.

The project is split into modules:

- `Wrappers` holds `Option` and `Result`.
- `JsText` holds the JavaScript pieces the core relies on: `trim`, `length`
  in UTF-16 code units, `parseInt` and the decimal rendering of numbers in
  template strings.
- `Ordering` holds the `ORDER BY` comparison and an insertion sort that is
  proved sorted and a permutation.
- `Ilike` holds PostgreSQL's `ILIKE` matcher.
- `Schema` holds the rows, the inserts, the patches, the column checks and
  the way PostgreSQL stores an over-long `varchar` (trailing spaces cut).
- `FileStorage` and `FolderStorage` model the two storage classes.
  - The listings are functions over the table (`seq`).
  - The tables are classes whose write methods change `rows` and the
    `serial` counter `nextId`.
- `FilesRoute` models the API handlers. `Post` is a loop over the uploaded
  files that calls `FileTable.CreateFile`. It is proved against the
  recursive specification `PostOutcome`.
- `CreateFolderDialog`, `FilePagination` and `ContextMenu` model the three
  client pieces. `GeneratePaginationItems` is the component's loop. It is
  proved equal to the function `PaginationItems`, and the layout lemmas are
  proved about that function.

Several things are inputs to the model: the session's user id, clock
readings (`now`, `Tick`), the uploaded files' name, type and size, and the
prompt's answer.

A few facts about the code that shape the model:

- When `sortBy` is an unknown column, `getFilesByFolder` falls back to
  `name`. The other views fall back to `updatedAt`.
- The page size has no upper bound.
- The upload route has no quota, MIME or retry handling. Each file becomes
  one `createFile` call, after a `Date.now()` path and an
  `insertFileSchema.parse`.
- `GET /api/files` reads only `folderId`.

## Model

| member | source | states |
|---|---|---|
| Schema.AcceptedInsertIsStoredAsGiven | src/shared/schema.ts:79-94 | With a valid `serial` id, a record the insert schema accepts (lengths in UTF-16 code units: name ≤ 255, mime ≤ 100, path ≤ 500; `integer` size and folder) fits every column and is stored unchanged. |
| Schema.AcceptedFolderIsStoredAsGiven | src/shared/schema.ts:68-77 | A folder record the insert schema accepts fits the `folders` columns and is stored unchanged. |
| Schema.SchemaIsStricterThanColumns | src/shared/schema.ts:79-94 | The converse fails: 200 characters outside the Basic Multilingual Plane fit `varchar(255)`, but the schema counts 400 code units and refuses them. |
| Schema.StoreVarchar | src/shared/schema.ts:79-94 | A string is stored in `varchar(max)` exactly when it fits or is too long only by spaces. The stored value fits and is the string with trailing spaces cut. |
| Schema.StoreFile | src/shared/schema.ts:79-94 | A stored `files` row fits every column, and a row that already fits is stored unchanged. |
| Schema.StoreFileCutsOnlySpaces | src/shared/schema.ts:79-94 | A write to `files` is refused exactly when an integer is out of range or a text value is too long by more than spaces. Otherwise only the four text columns can change, each losing trailing spaces at most. |
| Schema.TrailingSpacesAreCut | src/shared/schema.ts:81 | A name longer than 255 only by trailing spaces is stored cut to 255. |
| Schema.StoreFolder | src/shared/schema.ts:68-77 | A stored `folders` row fits every column, and a row that already fits is stored unchanged. |
| Schema.StoreFolderCutsOnlySpaces | src/shared/schema.ts:68-77 | A write to `folders` is refused exactly when a value does not fit. A name too long only by spaces is cut, and nothing else changes. |
| Schema.NewFileFlags | src/shared/schema.ts:90-91 | An insert that omits `isStarred` or `isTrashed` gets the column default `false`. |
| Schema.EmptyFilePatch | src/lib/storage/file-storage.ts:62-73 | A patch that sets no field changes only `updatedAt`. |
| JsText.TrimStart | src/components/create-folder-dialog.tsx:34 | The result is a suffix of the input that does not start with whitespace. |
| JsText.TrimStartDropsWhitespace | src/components/create-folder-dialog.tsx:34 | Everything `trimStart` removes is whitespace. |
| JsText.TrimEnd | src/components/create-folder-dialog.tsx:34 | The result is a prefix of the input that does not end with whitespace. |
| JsText.TrimEndDropsWhitespace | src/components/create-folder-dialog.tsx:34 | Everything `trimEnd` removes is whitespace. |
| JsText.TrimSplits | src/components/create-folder-dialog.tsx:34 | `trim()` returns a contiguous slice of the input with no whitespace at either end, and only whitespace was cut around it. |
| JsText.TrimEmptyIff | src/components/create-folder-dialog.tsx:35 | `trim()` gives the empty string if and only if every character is whitespace. |
| JsText.TrimIdempotent | src/hooks/use-context-menu.ts:133 | Trimming twice is trimming once. |
| JsText.Utf16Length | src/components/create-folder-dialog.tsx:40 | A string's JavaScript `length` is between its code-point count and twice that count. |
| JsText.AstralLength | src/shared/schema.ts:81 | A string made only of characters outside the Basic Multilingual Plane has a JavaScript `length` of twice its character count. |
| JsText.ParseDecimalString | src/hooks/use-context-menu.ts:21-23 | `parseInt` reads back exactly the number that a template string wrote in decimal. |
| JsText.DecimalStringInjective | src/hooks/use-context-menu.ts:21-23 | Two different numbers are never written as the same decimal string. |
| Ordering.PrecedesTotal | src/lib/storage/file-storage.ts:49 | The `ORDER BY` comparison relates every pair of keys, including NULL timestamps (NULLS LAST ascending, first descending). |
| Ordering.PrecedesTransitive | src/lib/storage/file-storage.ts:49 | The `ORDER BY` comparison is transitive in both directions. |
| Ordering.InsertSorted | src/lib/storage/file-storage.ts:49 | Inserting a row into a sorted list keeps it sorted by the key in the requested direction. |
| Ordering.InsertPermutes | src/lib/storage/file-storage.ts:49 | Inserting a row adds exactly that row and loses none. |
| Ordering.SortByIsSortedPermutation | src/lib/storage/file-storage.ts:49 | The ordered result is sorted by the key in the requested direction and is a permutation of its input. |
| Ilike.LiteralThenPercent | src/lib/storage/file-storage.ts:205-208 | For a query with no `%`, `_` or `\`, `ILIKE 'q%'` holds exactly when the text starts with `q`, ignoring ASCII case. |
| Ilike.LeadingPercent | src/lib/storage/file-storage.ts:205-208 | A leading `%` matches exactly when the rest of the pattern matches some suffix of the text. |
| Ilike.SubstringSearch | src/lib/storage/file-storage.ts:205-208 | For a query with no pattern characters, `ILIKE '%q%'` holds exactly when the text contains `q`, ignoring ASCII case. |
| FileStorage.Select | src/lib/storage/file-storage.ts:42-48 | A row is selected exactly when it is in the table and satisfies the view's `WHERE` clause. |
| FileStorage.ResolveFollowsOptions | src/lib/storage/file-storage.ts:18-37 | A given page or limit is used as given. Otherwise page 1, and limit 20 for recent or 50 elsewhere. Without `sortBy`, recent and trash sort by `updatedAt` and the others by `name`. Each known column name selects its column. An unknown one falls back to `name` in a folder and to `updatedAt` elsewhere. Without `sortOrder`, recent and trash sort descending; otherwise only `"desc"` does. |
| FileStorage.CountIsSelectionSize | src/lib/storage/file-storage.ts:262-330 | Each `count(*)` method returns the number of rows that its listing's `WHERE` clause selects. |
| FileStorage.SelectConcat | src/lib/storage/file-storage.ts:42-48 | Filtering a table made of two parts filters each part and concatenates the results. |
| FileStorage.OrderedIsSortedPermutation | src/lib/storage/file-storage.ts:49 | The `ORDER BY` result is sorted by the chosen column and is a permutation of the selected rows. |
| FileStorage.Window | src/lib/storage/file-storage.ts:50-51 | `LIMIT`/`OFFSET` keep the rows from position `offset` onward, at most `limit` of them, in order. |
| FileStorage.List | src/lib/storage/file-storage.ts:13-52 | A listing fails exactly when a truthy folder id lies outside `integer` (that error first), or the resolved limit or offset is negative. Otherwise it holds at most `limit` rows, each in the table and satisfying the view's filter. |
| FileStorage.PageIsSorted | src/lib/storage/file-storage.ts:49-51 | Every page is sorted by the resolved column and direction. |
| FileStorage.OrderedSize | src/lib/storage/file-storage.ts:49 | Ordering keeps exactly as many rows as the count reports. |
| FileStorage.PageSizeFromCount | src/lib/storage/file-storage.ts:50-51 | A page's size is `min(limit, count - offset)`, or 0 once the offset passes the count. |
| FileStorage.TrashOnlyInTrash | src/lib/storage/file-storage.ts:185 | Only the trash view lists trashed files, and the trash view lists only trashed files. |
| FileStorage.EveryMatchIsOnAPage | src/lib/storage/file-storage.ts:24 | With a positive page size, every stored matching row whose sort key no other matching row shares appears on some page `>= 1`. |
| FileStorage.DefaultListing | src/lib/storage/file-storage.ts:82-91 | Without options, a view answers exactly when its folder id fits `integer`. It then gives the first page of its default size (20 for recent, 50 elsewhere). Recent and trash are newest `updatedAt` first; the others are by name, ascending. |
| FileStorage.SearchFindsSubstrings | src/lib/storage/file-storage.ts:205-228 | For a query without `%`, `_` or `\`, a search matches an untrashed file of the user exactly when its name or MIME type contains the query, ignoring ASCII case. |
| FileStorage.FilesCount | src/lib/storage/file-storage.ts:244-277 | `getFilesCount` counts the selection of the named view. Any other view name counts "My Drive" in `folderId \|\| null`. That count fails exactly when a truthy folder id lies outside `integer`. |
| FileStorage.SameFolder | src/lib/storage/file-storage.ts:258 | Replacing a falsy folder id by NULL does not change the folder selection. |
| FileStorage.SameMatchesSameSelect | src/lib/storage/file-storage.ts:42-48 | Two filters that agree on every row select the same rows. |
| FileStorage.SumSizesConcat | src/lib/storage/file-storage.ts:240 | The `reduce` sum over two parts of a table is the sum of their sums. |
| FileStorage.SelectUpdate | src/lib/storage/file-storage.ts:62-73 | Replacing one row changes a selection only at that row. |
| FileStorage.StorageUsedAfterUpdate | src/lib/storage/file-storage.ts:234-241 | After one row is updated, storage used changes by the new row's contribution minus the old row's. |
| FileStorage.TrashingFreesItsSize | src/lib/storage/file-storage.ts:234-241 | Trashing one of the user's untrashed files lowers storage used by exactly that file's size. |
| FileStorage.StorageUsedAfterInsert | src/lib/storage/file-storage.ts:234-241 | A new row adds its size to its owner's storage if it is untrashed, and nothing otherwise. |
| FileStorage.IndexOf | src/lib/storage/file-storage.ts:54-60 | The position found holds a row with both the id and the user id. When none is found, no such row exists. |
| FileStorage.FileById | src/lib/storage/file-storage.ts:54-60 | `getFileById` fails exactly when the id lies outside `integer`. Otherwise it returns a row of the table with that id and owner, or nothing when none exists. |
| FileStorage.InsertOutcome | src/lib/storage/file-storage.ts:8-11 | A `size` or `folderId` outside `integer` fails first. Otherwise an insert succeeds exactly when the `serial` value fits `integer`, the columns take the row and the id is unused. The new row carries that id and is the row as the columns store it. A record that passed the insert schema is stored as given. |
| FileStorage.FileTable.CreateFile | src/lib/storage/file-storage.ts:8-11 | The result is exactly `InsertOutcome`. A `size` or `folderId` outside `integer` fails before the sequence moves. Otherwise the sequence advances whether the insert succeeds or not. On success exactly the returned row is appended. On failure the table is unchanged. |
| FileStorage.FileTable.UpdateFile | src/lib/storage/file-storage.ts:62-73 | An id, or a patched `id`, `size` or `folderId`, outside `integer` fails and changes nothing, whether or not a row matches. Otherwise only the row with the id and user id is patched, and its `updatedAt` is set. Nothing is returned when there is no such row. The patched row is stored as the columns take it: over-long trailing spaces are cut. A value that does not fit, or a taken id, leaves the table unchanged. |
| FileStorage.FileTable.DeleteFile | src/lib/storage/file-storage.ts:75-80 | An id outside `integer` fails and changes nothing. Otherwise it returns true exactly when a row with the id and user id existed. That row is removed, every other row stays in order, and no such row remains. |
| FileStorage.UpdateKeepsOtherUsersListings | src/lib/storage/file-storage.ts:62-73 | Updating one user's file changes no listing of another user. |
| FileStorage.DeleteKeepsOtherUsersListings | src/lib/storage/file-storage.ts:75-80 | Deleting one user's file changes no listing of another user. |
| FolderStorage.Children | src/lib/storage/folder-storage.ts:19-24 | A folder is kept exactly when it is the user's and sits under the parent (NULL for a falsy parent). |
| FolderStorage.FoldersByParent | src/lib/storage/folder-storage.ts:12-26 | The listing fails exactly when a truthy parent id lies outside `integer`. Otherwise it is sorted by name and is a permutation of the filtered folders. |
| FolderStorage.ListedIff | src/lib/storage/folder-storage.ts:12-26 | When the listing answers, a folder is in it exactly when it is in the table, is the user's, and sits under that parent. |
| FolderStorage.ZeroParentIsRoot | src/lib/storage/folder-storage.ts:22 | Asking for parent `0` lists the root folders, because `0` is falsy. |
| FolderStorage.ZeroParentIsInvisible | src/lib/storage/folder-storage.ts:22 | A folder stored with `parentId` 0 is in no listing, under any parent. |
| FolderStorage.IndexOf | src/lib/storage/folder-storage.ts:28-34 | The position found holds a folder with both the id and the user id. When none is found, no such folder exists. |
| FolderStorage.FolderById | src/lib/storage/folder-storage.ts:28-34 | `getFolderById` fails exactly when the id lies outside `integer`. Otherwise it returns a folder of the table with that id and owner, or nothing when none exists. |
| FolderStorage.IndexOfUnique | src/lib/storage/folder-storage.ts:28-34 | With unique ids, lookup finds the one row that has the id. |
| FolderStorage.FolderTable.CreateFolder | src/lib/storage/folder-storage.ts:7-10 | A `parentId` outside `integer` fails before the sequence moves. Otherwise the sequence advances whether the insert succeeds or not. The insert succeeds exactly when the id fits `integer`, the columns take the row and the id is unused. The stored folder is appended and can then be fetched by its id. A record that passed the insert schema is stored as given. |
| FolderStorage.FolderTable.UpdateFolder | src/lib/storage/folder-storage.ts:36-47 | An id, or a patched `id` or `parentId`, outside `integer` fails and changes nothing, whether or not a folder matches. Otherwise only the matching folder is patched, and its `updatedAt` is set. Nothing is returned when there is no match. The patched row is stored as the columns take it: a name over-long only by spaces is cut, and anything else that does not fit leaves the table unchanged. Every other row is unchanged. |
| FolderStorage.FolderTable.DeleteFolder | src/lib/storage/folder-storage.ts:49-54 | An id outside `integer` fails and changes nothing. Otherwise it returns true exactly when a matching folder existed, and only that row is removed. Nothing cascades: the files table is not in the method's frame. |
| FolderStorage.CreatedFolderIsListed | src/app/api/folders/route.ts:22-26 | A folder created with the route's `parentId \|\| null`, as the table stores it, is listed under the parent it was created in. The route's parse step is described under "## Left out". |
| FolderStorage.DeleteKeepsChildren | src/lib/storage/folder-storage.ts:49-54 | Deleting a folder leaves its children in place: every other folder listed under it before is still listed under its id afterwards. |
| FilesRoute.ParseFolderParam | src/app/api/files/route.ts:17-20 | A missing or empty `folderId` means no folder. A number is what `parseInt` reads. Any other text is NaN. |
| FilesRoute.Parsed | src/app/api/files/route.ts:39-47 | `insertFileSchema.parse` throws exactly when the folder is NaN or the record fails the schema's UTF-16 lengths and `integer` ranges. Otherwise it returns the record built from the upload. |
| FilesRoute.RunBatchCreatesExpectedRows | src/app/api/files/route.ts:29-51 | The loop creates one row per file, in order, each equal to the row built from that file and its tick. It stops at the first failure, and the sequence has advanced once per `createFile` call. |
| FilesRoute.UploadedIsOneRowPerFile | src/app/api/files/route.ts:29-53 | A 200 response returns one created file per uploaded file, and exactly those rows are appended to the table. |
| FilesRoute.UploadedRowCopiesTheFile | src/app/api/files/route.ts:34-47 | The i-th returned row carries the i-th file's name (also as `originalName`), type and size, the session's user, and the path `uploads/<now>-<name>`. |
| FilesRoute.FailureKeepsEarlierRows | src/app/api/files/route.ts:54-59 | When the route answers 400 "Failed to upload", the rows created before the failure stay in the table. |
| FilesRoute.RejectedRequestChangesNothing | src/app/api/files/route.ts:10-27 | Without a session, or with no files, the route answers 401 or 400 and the table and sequence are untouched. |
| FilesRoute.NotANumberFolderCreatesNothing | src/app/api/files/route.ts:17-20 | A non-numeric `folderId` fails the first parse, so nothing is created and the sequence does not move. |
| FilesRoute.UploadedFileIsInItsFolder | src/app/api/files/route.ts:17-49 | When `folderId` is absent or a non-zero number, every uploaded file is then listed in that folder (or at the root). |
| FilesRoute.Post | src/app/api/files/route.ts:8-61 | The handler's response, table and sequence are exactly those of the specification `RequestOutcome`. |
| FilesRoute.RequestOutcome | src/app/api/files/route.ts:9-16 | A body that is not form data answers 400 "Failed to upload files" and writes nothing, once the session is checked. A readable form is handled as `PostOutcome` says. |
| FilesRoute.ListedFolder | src/app/api/files/route.ts:72-74 | A folder is passed on exactly when `folderId` is a non-zero number. |
| FilesRoute.Get | src/app/api/files/route.ts:64-85 | Answers 401 exactly without a session. It answers 500 exactly when `folderId` parses to a non-zero number outside `integer`, which makes the listing throw. Otherwise it returns the first page of the user's untrashed files in the requested folder: `min(50, count)` files, sorted by name ascending. |
| FilesRoute.FolderPastIntegerFails | src/app/api/files/route.ts:72-83 | For every `n` outside `integer`, such as 2147483648, a request with `folderId` set to `n` in decimal answers 500 "Failed to fetch files". |
| FilesRoute.FalsyFolderListsRoot | src/app/api/files/route.ts:72-76 | A `folderId` that parses to 0 or NaN lists the root, as when no `folderId` is given. |
| CreateFolderDialog.Validate | src/components/create-folder-dialog.tsx:31-54 | The name is rejected as required exactly when it trims to nothing, and as too long exactly when it is longer than 255 code units. It is rejected as invalid exactly when it contains one of `< > : " / \ \| ? *`. Otherwise it is accepted trimmed. |
| CreateFolderDialog.AcceptedNameIsClean | src/components/create-folder-dialog.tsx:31-54 | An accepted name is non-empty, has no surrounding whitespace and no forbidden character, and fits the column. Submitting it again accepts it unchanged. |
| CreateFolderDialog.WhitespaceOnlyIsRequired | src/components/create-folder-dialog.tsx:34-38 | A whitespace-only name is rejected as required. |
| CreateFolderDialog.NameOf255IsAccepted | src/components/create-folder-dialog.tsx:40-43 | A clean name is accepted exactly when its length is at most 255, so exactly 255 passes. |
| CreateFolderDialog.HandleSubmit | src/components/create-folder-dialog.tsx:31-61 | A rejection shows the message of the first failing check, as `Validate` gives it, and keeps the name. An acceptance hands on the trimmed name once, clears the name and the error, and closes the dialog. |
| CreateFolderDialog.EnabledSubmitIsNotEmpty | src/components/create-folder-dialog.tsx:111 | The button is disabled while creating and for a blank name, so an enabled submit never hits "required". |
| CreateFolderDialog.CreatedNamesFitTheTable | src/components/create-folder-dialog.tsx:52-54 | Every name the dialog hands on passes `insertFolderSchema`. |
| FilePagination.EffectiveTotalPages | src/components/home/file-pagination.tsx:30 | `totalPages \|\| 1` is never 0, and keeps any non-zero count. |
| FilePagination.Links | src/components/home/file-pagination.tsx:61-80 | The loop's links are the pages `lo..hi` in order, each active exactly when it is the current page. |
| FilePagination.GeneratePaginationItems | src/components/home/file-pagination.tsx:28-110 | The component's loop builds exactly the item list `PaginationItems`. |
| FilePagination.Layout | src/components/home/file-pagination.tsx:33-107 | The list is page 1, an optional leading ellipsis, the window around the current page, an optional trailing ellipsis, and the last page. |
| FilePagination.PagesStrictlyIncrease | src/components/home/file-pagination.tsx:33-107 | The page numbers shown strictly increase, so no page is shown twice. |
| FilePagination.ShownIff | src/components/home/file-pagination.tsx:33-107 | A page is shown exactly when it is the first, the last, or within one of the current page and strictly between them. |
| FilePagination.EllipsisIff | src/components/home/file-pagination.tsx:52-89 | The leading ellipsis appears exactly when the current page is above 3. The trailing one appears exactly when it is below `totalPages - 2`. |
| FilePagination.CurrentIsTheOnlyActiveLink | src/components/home/file-pagination.tsx:43-101 | For a current page in range, exactly its link is active. |
| FilePagination.EveryPageShownOrElided | src/components/home/file-pagination.tsx:33-107 | Every page in range is either shown or hidden behind an ellipsis on its side. |
| FilePagination.NavigationStaysInRange | src/components/home/file-pagination.tsx:131-151 | Previous and Next only move to pages between 1 and the total, and do nothing at either end. |
| FilePagination.ShowingCountsThePage | src/components/home/file-pagination.tsx:120-122 | When the current page starts inside the count, the store answers it exactly when the folder id fits `integer`. "Showing a to b" then covers exactly the rows of the listing's page: `b - a + 1` is the page size. |
| ContextMenu.EndpointInjective | src/hooks/use-context-menu.ts:21-23 | Two items share an endpoint only when they have the same type and the same id. |
| ContextMenu.EndpointIdRoundTrip | src/hooks/use-context-menu.ts:21-23 | The `[id]` segment of the endpoint parses back to the item's id. |
| ContextMenu.HandleRename | src/hooks/use-context-menu.ts:131-138 | A rename is sent exactly when the answer trims to something non-empty that differs from the current name. It is sent trimmed. |
| ContextMenu.SubmittedRenameIsAChange | src/hooks/use-context-menu.ts:131-138 | A submitted name is clean and new, and the same answer against the new name sends nothing. |
| ContextMenu.StarFlips | src/hooks/use-context-menu.ts:94-99 | The star request flips the flag (a NULL flag becomes starred) and changes nothing else but `updatedAt`. |
| ContextMenu.StarTwiceRestores | src/hooks/use-context-menu.ts:94-99 | Starring twice restores a set flag. A NULL flag comes back as `false`. |
| ContextMenu.HandleDownload | src/hooks/use-context-menu.ts:140-145 | A file opens `/api/files/download/<id>` and a folder opens nothing. The menu is closed either way. |

## Left out

- The database is a sequence of rows. Transactions, concurrency and the `users` foreign key are not modelled. A row's `userId` is any string.
- String collation: `ORDER BY name` compares code points. Locale collation and non-ASCII case folding in `ILIKE` are not modelled.
- Rows with equal sort keys come out in the order of the insertion sort. PostgreSQL leaves that order unspecified.
- FileStorage.EveryMatchIsOnAPage: covers only rows whose sort key no other matching row shares. Each `LIMIT`/`OFFSET` query may order tied rows differently, so a tied row can be skipped or shown twice across pages.
- `LIMIT` and `OFFSET` take `bigint`. A limit or offset beyond its range is not modelled: only a negative one fails.
- Timestamps are integers supplied by the caller. `Date.now()` and `new Date()` are parameters.
- JavaScript numbers are unbounded integers here. Precision loss above 2^53 and `NaN` arithmetic are not modelled, except `parseInt`'s NaN for a non-numeric `folderId`.
- FileStorage.FileTable.CreateFile: takes only the insert schema's fields. An insert that sets an explicit `id` or timestamps is not modelled.
- Runtime type confusion in request bodies (a PUT body whose fields have the wrong JSON types) is not modelled. Patches are typed.
- The uploaded bytes, Cloudinary and disk writes are left out. The upload route never stores file content.
- Authentication, the middleware and `getServerSession` are left out. The session is an input: the user's id or none.
- `formatBytes`, the storage quota shown in the UI and other floating-point display code are not modelled.
- Toasts, React Query cache invalidation and the redirect to the login page after a 401 are not modelled.
- CreateFolderDialog.HandleSubmit: the error cleared when the input changes is not modelled.
- `FilePagination` takes `currentPage` as given. Its default of 1 when the prop is missing is not modelled.
- The `relations` blocks of the schema are declarative only and are not modelled.
- The other API routes (preview, download, recent, starred, user, folders and `files/[id]`) are not part of this model. Two exceptions:
  - `CreatedFolderIsListed` uses the folders route's `parentId || null`.
  - `ZeroParentIsInvisible` covers the `parentId` 0 that the folder `PUT` route can store.
- FolderStorage.CreatedFolderIsListed: `POST /api/folders` (src/app/api/folders/route.ts:17-20) passes `userId: +userId`, a number, where `insertFolderSchema` expects a string. As written, that parse throws and the route answers 500. The lemma describes the folder the route would create if the parse passed.
