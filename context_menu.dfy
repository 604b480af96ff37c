/**
 * `useContextMenu`: which request each menu action sends for a file or a
 * folder, the rename guard, the star toggle, and download. The requests
 * are values; sending them, toasts and cache invalidation are not modelled.
 */
module ContextMenu {
  import opened Wrappers
  import opened Schema
  import JsText

  /** The menu's `type`: `"file"` or `"folder"`. */
  datatype ItemType = FileItem | FolderItem

  /** The JSON body of a request. */
  datatype Body = NoBody | NameBody(name: string) | StarBody(isStarred: bool)

  datatype Request = Request(verb: string, url: string, body: Body)

  const FilesPrefix: string := "/api/files/"
  const FoldersPrefix: string := "/api/folders/"
  const DownloadPrefix: string := "/api/files/download/"

  /** `/api/files/{id}` for a file, `/api/folders/{id}` for anything else. */
  function Endpoint(t: ItemType, id: int): string {
    (if t == FileItem then FilesPrefix else FoldersPrefix) + JsText.DecimalString(id)
  }

  /**
   * Two items reach the same endpoint only if they are the same item: the
   * prefixes differ at their seventh character and the numbers are written
   * without ambiguity.
   */
  lemma EndpointInjective(s: ItemType, m: int, t: ItemType, n: int)
    requires Endpoint(s, m) == Endpoint(t, n)
    ensures s == t && m == n
  {
    var p := if s == FileItem then FilesPrefix else FoldersPrefix;
    var q := if t == FileItem then FilesPrefix else FoldersPrefix;
    var a := p + JsText.DecimalString(m);
    var b := q + JsText.DecimalString(n);
    assert FilesPrefix[6] == 'i' && FoldersPrefix[6] == 'o';
    assert a[6] == p[6] && b[6] == q[6];
    assert JsText.DecimalString(m) == a[|p|..];
    assert JsText.DecimalString(n) == b[|p|..];
    JsText.DecimalStringInjective(m, n);
  }

  /** The `[id]` routes read the id back with `parseInt`: the segment after the prefix is the item's id. */
  lemma EndpointIdRoundTrip(t: ItemType, id: int)
    ensures var p := if t == FileItem then FilesPrefix else FoldersPrefix;
      && Endpoint(t, id)[..|p|] == p
      && JsText.ParseInt(Endpoint(t, id)[|p|..]) == Some(id)
  {
    var p := if t == FileItem then FilesPrefix else FoldersPrefix;
    assert Endpoint(t, id)[|p|..] == JsText.DecimalString(id);
    JsText.ParseDecimalString(id);
  }

  /** What `handleRename` does after the prompt: send the trimmed name, or just close. */
  datatype RenameAction = SubmitRename(name: string) | CloseMenu

  /**
   * `handleRename`: a prompt answer is sent when it trims to something
   * other than nothing and other than the current name; cancelling the
   * prompt (`None`) closes the menu.
   */
  function HandleRename(prompted: Option<string>, currentName: string): (a: RenameAction)
    ensures a.SubmitRename? <==>
      prompted.Some? && JsText.Trim(prompted.value) != "" && JsText.Trim(prompted.value) != currentName
    ensures a.SubmitRename? ==> a.name == JsText.Trim(prompted.value)
  {
    match prompted
    case None => CloseMenu
    case Some(v) =>
      var t := JsText.Trim(v);
      if t != "" && t != currentName then SubmitRename(t) else CloseMenu
  }

  /** The `PUT` the rename mutation sends: `{ name }` to the item's endpoint. */
  function RenameRequest(t: ItemType, id: int, name: string): Request {
    Request("PUT", Endpoint(t, id), NameBody(name))
  }

  /** The `DELETE` the delete mutation sends, with no body. */
  function DeleteRequest(t: ItemType, id: int): Request {
    Request("DELETE", Endpoint(t, id), NoBody)
  }

  /**
   * A submitted rename is a real change: the name is not empty, carries no
   * surrounding whitespace, differs from the current name, and a second
   * rename to the same answer is not sent.
   */
  lemma SubmittedRenameIsAChange(prompted: Option<string>, currentName: string)
    requires HandleRename(prompted, currentName).SubmitRename?
    ensures var n := HandleRename(prompted, currentName).name;
      && n != "" && n != currentName
      && !JsText.IsWhitespace(n[0]) && !JsText.IsWhitespace(n[|n| - 1])
      && HandleRename(prompted, n) == CloseMenu
  {
    JsText.TrimSplits(prompted.value);
  }

  /** The body of the star request: `isStarred: !file.isStarred`, where a NULL flag counts as false. */
  function StarPayload(isStarred: Option<bool>): bool {
    isStarred != Some(true)
  }

  /** The `PUT` the star mutation sends, always to the files endpoint. */
  function StarRequest(f: File): Request {
    Request("PUT", Endpoint(FileItem, f.id), StarBody(StarPayload(f.isStarred)))
  }

  /** How `updateFile` reads the star body: only `isStarred` is given. */
  function StarPatch(isStarred: bool): FilePatch {
    NoFileChanges.(isStarred := Given(Some(isStarred)))
  }

  /** The file after the star request has been applied to it at time `now`. */
  function Starred(f: File, now: int): File {
    PatchFile(f, StarPatch(StarPayload(f.isStarred)), now)
  }

  /** Starring flips the flag (NULL becomes starred) and changes nothing but the flag and `updatedAt`. */
  lemma StarFlips(f: File, now: int)
    ensures Starred(f, now).isStarred == Some(f.isStarred != Some(true))
    ensures Starred(f, now) == f.(isStarred := Starred(f, now).isStarred, updatedAt := Some(now))
  {
  }

  /** Starring twice gives back a set flag; a NULL flag comes back as false. */
  lemma StarTwiceRestores(f: File, t1: int, t2: int)
    ensures Starred(Starred(f, t1), t2) == f.(isStarred := Some(f.isStarred == Some(true)), updatedAt := Some(t2))
    ensures f.isStarred.Some? ==> Starred(Starred(f, t1), t2) == f.(updatedAt := Some(t2))
  {
    StarFlips(f, t1);
    StarFlips(Starred(f, t1), t2);
    if f.isStarred.Some? {
      if f.isStarred.value {
        assert f.isStarred == Some(true);
      } else {
        assert f.isStarred == Some(false) && Some(false) != Some(true);
      }
    }
  }

  /** What `handleDownload` does: the URL it opens, if any; the menu is closed either way. */
  datatype DownloadAction = DownloadAction(url: Option<string>, closed: bool)

  function HandleDownload(t: ItemType, id: int): (a: DownloadAction)
    ensures a.closed
    ensures a.url.Some? <==> t == FileItem
    ensures a.url.Some? ==> a.url.value == DownloadPrefix + JsText.DecimalString(id)
  {
    if t == FileItem then DownloadAction(Some(DownloadPrefix + JsText.DecimalString(id)), true)
    else DownloadAction(None, true)
  }
}
