/**
 * `POST /api/files` and `GET /api/files`. The session, the form data and
 * the clock readings are inputs; HTTP replies are the datatype `PostResponse`
 * with the status each carries.
 */
module FilesRoute {
  import opened Wrappers
  import opened Schema
  import JsText
  import opened FileStorage
  import Ordering

  /** One entry of the `files` form field: the browser's `File` object. */
  datatype Upload = Upload(name: string, mimeType: string, size: nat)

  /** The form fields the route reads: every `files` entry, and `folderId` (absent is `None`). */
  datatype FormData = FormData(files: seq<Upload>, folderId: Option<string>)

  /** The readings of the two clocks for one file: `Date.now()` in the route, `now()` in the database. */
  datatype Tick = Tick(routeNow: nat, storeNow: int)

  datatype PostResponse =
    | Unauthorized          // 401 "Unauthorized"
    | NoFilesUploaded       // 400 "No files uploaded"
    | UploadFailed          // 400 "Failed to upload files"
    | Uploaded(files: seq<File>)

  function Status(r: PostResponse): int {
    match r
    case Unauthorized => 401
    case NoFilesUploaded => 400
    case UploadFailed => 400
    case Uploaded(_) => 200
  }

  /** `session?.user?.id` is truthy: a session whose user id is the empty string is no session. */
  predicate Authorized(session: Option<UserId>) {
    session.Some? && session.value != ""
  }

  /** The folder parameter after `value ? parseInt(value) : null`. */
  datatype FolderParam = NoFolder | FolderNumber(n: int) | NotANumber

  function ParseFolderParam(value: Option<string>): (p: FolderParam)
    ensures value.None? || value == Some("") ==> p == NoFolder
    ensures p.FolderNumber? ==> JsText.ParseInt(value.value) == Some(p.n)
    ensures p.NotANumber? <==> value.Some? && value.value != "" && JsText.ParseInt(value.value).None?
  {
    if value.None? || value.value == "" then NoFolder
    else match JsText.ParseInt(value.value)
      case None => NotANumber
      case Some(n) => FolderNumber(n)
  }

  /** The path recorded for an upload: `uploads/<Date.now()>-<name>`. */
  function UploadPath(now: nat, name: string): string {
    "uploads/" + JsText.DecimalString(now) + "-" + name
  }

  /** The object handed to `insertFileSchema.parse` for one upload. */
  function Record(u: Upload, folderId: Option<int>, userId: UserId, now: nat): InsertFile {
    InsertFile(u.name, u.name, u.mimeType, u.size, UploadPath(now, u.name), folderId, userId, Absent, Absent)
  }

  /** The folder id a parameter stands for in the insert, when it is a number at all. */
  function FolderValue(folder: FolderParam): Option<int> {
    match folder
    case FolderNumber(n) => Some(n)
    case _ => None
  }

  /**
   * `insertFileSchema.parse`: `None` when it throws. A `NaN` folder id is
   * not a number to the schema, so it throws as a too-long name does.
   */
  function Parsed(u: Upload, folder: FolderParam, userId: UserId, now: nat): (r: Option<InsertFile>)
    ensures r.None? <==> folder.NotANumber? || !InsertFileAccepted(Record(u, FolderValue(folder), userId, now))
    ensures r.Some? ==> r.value == Record(u, FolderValue(folder), userId, now)
  {
    if folder.NotANumber? then None
    else
      var n := Record(u, FolderValue(folder), userId, now);
      if InsertFileAccepted(n) then Some(n) else None
  }

  /** Where the loop stands after a run: the rows it created, the sequence, and whether it threw. */
  datatype Batch = Batch(created: seq<File>, nextId: int, failed: bool)

  /**
   * The `for` loop over the uploads: parse, then insert, one upload after
   * the other; the first throw ends the loop and keeps what was inserted.
   */
  function RunBatch(rows: seq<File>, nextId: int, uploads: seq<Upload>, folder: FolderParam, userId: UserId, ticks: seq<Tick>): Batch
    requires |ticks| == |uploads|
    decreases |uploads|
  {
    if uploads == [] then Batch([], nextId, false)
    else match Parsed(uploads[0], folder, userId, ticks[0].routeNow)
      case None => Batch([], nextId, true)
      case Some(n) =>
        match InsertOutcome(rows, nextId, n, ticks[0].storeNow)
        case Failure(_) => Batch([], nextId + 1, true)
        case Success(f) =>
          var rest := RunBatch(rows + [f], nextId + 1, uploads[1..], folder, userId, ticks[1..]);
          Batch([f] + rest.created, rest.nextId, rest.failed)
  }

  /** What `POST` answers, and the table and sequence it leaves behind. */
  datatype Outcome = Outcome(response: PostResponse, rows: seq<File>, nextId: int)

  function PostOutcome(rows: seq<File>, nextId: int, session: Option<UserId>, form: FormData, ticks: seq<Tick>): Outcome
    requires |ticks| == |form.files|
  {
    if !Authorized(session) then Outcome(Unauthorized, rows, nextId)
    else if form.files == [] then Outcome(NoFilesUploaded, rows, nextId)
    else
      var b := RunBatch(rows, nextId, form.files, ParseFolderParam(form.folderId), session.value, ticks);
      Outcome(if b.failed then UploadFailed else Uploaded(b.created), rows + b.created, b.nextId)
  }

  /**
   * The whole handler. The form is read after the session check; a body
   * that is not form data (`None`) makes `request.formData()` throw, and
   * the `catch` answers 400 "Failed to upload files" with nothing written.
   * A readable form goes on as `PostOutcome` says.
   */
  function RequestOutcome(rows: seq<File>, nextId: int, session: Option<UserId>, body: Option<FormData>, ticks: seq<Tick>): (o: Outcome)
    requires body.Some? ==> |ticks| == |body.value.files|
    ensures Authorized(session) && body.None? ==> o == Outcome(UploadFailed, rows, nextId) && Status(o.response) == 400
    ensures !Authorized(session) || body.Some? ==>
      o == PostOutcome(rows, nextId, session, body.GetOr(FormData([], None)), if body.Some? then ticks else [])
  {
    if !Authorized(session) then Outcome(Unauthorized, rows, nextId)
    else match body
      case None => Outcome(UploadFailed, rows, nextId)
      case Some(form) => PostOutcome(rows, nextId, session, form, ticks)
  }

  /**
   * The row the loop creates for the `i`th upload when every earlier one
   * went in: the store numbers it `nextId + i`.
   */
  function ExpectedRow(uploads: seq<Upload>, folderId: Option<int>, userId: UserId, ticks: seq<Tick>, nextId: int, i: nat): File
    requires |ticks| == |uploads| && i < |uploads|
  {
    FileRow(Record(uploads[i], folderId, userId, ticks[i].routeNow), nextId + i, ticks[i].storeNow)
  }

  /**
   * A run creates, in order, one row per upload it got through, each the
   * expected row; it stops early exactly when it fails.
   */
  lemma {:induction false} RunBatchCreatesExpectedRows(rows: seq<File>, nextId: int, uploads: seq<Upload>, folder: FolderParam, userId: UserId, ticks: seq<Tick>)
    requires |ticks| == |uploads|
    decreases |uploads|
    ensures var b := RunBatch(rows, nextId, uploads, folder, userId, ticks);
      && |b.created| <= |uploads|
      && (b.failed <==> |b.created| < |uploads|)
      && (forall i :: 0 <= i < |b.created| ==>
            b.created[i] == ExpectedRow(uploads, FolderValue(folder), userId, ticks, nextId, i))
      && nextId + |b.created| <= b.nextId <= nextId + |b.created| + 1
      && (!b.failed ==> b.nextId == nextId + |b.created|)
  {
    if uploads != [] {
      match Parsed(uploads[0], folder, userId, ticks[0].routeNow)
      case None =>
      case Some(n) =>
        match InsertOutcome(rows, nextId, n, ticks[0].storeNow)
        case Failure(_) =>
        case Success(f) =>
          var rest := RunBatch(rows + [f], nextId + 1, uploads[1..], folder, userId, ticks[1..]);
          RunBatchCreatesExpectedRows(rows + [f], nextId + 1, uploads[1..], folder, userId, ticks[1..]);
          assert RunBatch(rows, nextId, uploads, folder, userId, ticks) == Batch([f] + rest.created, rest.nextId, rest.failed);
          PrependExpected(uploads, FolderValue(folder), userId, ticks, nextId, f, rest.created);
    }
  }

  /** The first expected row, followed by the expected rows of the uploads after it, are the expected rows of all. */
  lemma PrependExpected(uploads: seq<Upload>, folderId: Option<int>, userId: UserId, ticks: seq<Tick>, nextId: int,
                        f: File, rest: seq<File>)
    requires |ticks| == |uploads| && |rest| < |uploads|
    requires f == ExpectedRow(uploads, folderId, userId, ticks, nextId, 0)
    requires forall i :: 0 <= i < |rest| ==> rest[i] == ExpectedRow(uploads[1..], folderId, userId, ticks[1..], nextId + 1, i)
    ensures forall i :: 0 <= i < |rest| + 1 ==> ([f] + rest)[i] == ExpectedRow(uploads, folderId, userId, ticks, nextId, i)
  {
    forall i | 1 <= i < |rest| + 1
      ensures ([f] + rest)[i] == ExpectedRow(uploads, folderId, userId, ticks, nextId, i)
    {
      assert ([f] + rest)[i] == rest[i - 1];
      assert uploads[1..][i - 1] == uploads[i] && ticks[1..][i - 1] == ticks[i];
    }
  }

  /** A successful upload answers 200 with exactly one new row per submitted file, in order, appended to the table. */
  lemma UploadedIsOneRowPerFile(rows: seq<File>, nextId: int, session: Option<UserId>, form: FormData, ticks: seq<Tick>)
    requires |ticks| == |form.files|
    requires PostOutcome(rows, nextId, session, form, ticks).response.Uploaded?
    ensures var o := PostOutcome(rows, nextId, session, form, ticks);
      && Status(o.response) == 200
      && |o.response.files| == |form.files|
      && o.rows == rows + o.response.files
      && o.nextId == nextId + |form.files|
      && forall i :: 0 <= i < |form.files| ==>
           o.response.files[i] ==
             ExpectedRow(form.files, FolderValue(ParseFolderParam(form.folderId)), session.value, ticks, nextId, i)
  {
    RunBatchCreatesExpectedRows(rows, nextId, form.files, ParseFolderParam(form.folderId), session.value, ticks);
  }

  /**
   * Each uploaded row copies the file's name into `name` and `originalName`,
   * its type and size, the batch's folder and the session's user, and is
   * neither starred nor trashed.
   */
  lemma UploadedRowCopiesTheFile(rows: seq<File>, nextId: int, session: Option<UserId>, form: FormData, ticks: seq<Tick>, i: nat)
    requires |ticks| == |form.files| && i < |form.files|
    requires PostOutcome(rows, nextId, session, form, ticks).response.Uploaded?
    requires i < |PostOutcome(rows, nextId, session, form, ticks).response.files|
    ensures var f := PostOutcome(rows, nextId, session, form, ticks).response.files[i];
      var u := form.files[i];
      && f.name == u.name && f.originalName == u.name
      && f.mimeType == u.mimeType && f.size == u.size
      && f.path == UploadPath(ticks[i].routeNow, u.name)
      && f.folderId == FolderValue(ParseFolderParam(form.folderId))
      && f.userId == session.value
      && f.isStarred == Some(false) && f.isTrashed == Some(false)
  {
    UploadedIsOneRowPerFile(rows, nextId, session, form, ticks);
  }

  /** A failed upload answers 400 and keeps the rows created before the failure: fewer than the files sent, each as expected. */
  lemma FailureKeepsEarlierRows(rows: seq<File>, nextId: int, session: Option<UserId>, form: FormData, ticks: seq<Tick>)
    requires |ticks| == |form.files|
    requires PostOutcome(rows, nextId, session, form, ticks).response.UploadFailed?
    ensures var o := PostOutcome(rows, nextId, session, form, ticks);
      && Status(o.response) == 400
      && |rows| <= |o.rows| < |rows| + |form.files|
      && o.rows[..|rows|] == rows
      && forall i :: |rows| <= i < |o.rows| ==>
           o.rows[i] ==
             ExpectedRow(form.files, FolderValue(ParseFolderParam(form.folderId)), session.value, ticks, nextId, i - |rows|)
  {
    var b := RunBatch(rows, nextId, form.files, ParseFolderParam(form.folderId), session.value, ticks);
    RunBatchCreatesExpectedRows(rows, nextId, form.files, ParseFolderParam(form.folderId), session.value, ticks);
    var o := PostOutcome(rows, nextId, session, form, ticks);
    assert o.rows == rows + b.created;
    assert o.rows[|rows|..] == b.created;
    forall i | |rows| <= i < |o.rows|
      ensures o.rows[i] ==
        ExpectedRow(form.files, FolderValue(ParseFolderParam(form.folderId)), session.value, ticks, nextId, i - |rows|)
    {
      assert o.rows[i] == b.created[i - |rows|];
    }
  }

  /** Without a user, or with no file, nothing is created and the sequence does not move. */
  lemma RejectedRequestChangesNothing(rows: seq<File>, nextId: int, session: Option<UserId>, form: FormData, ticks: seq<Tick>)
    requires |ticks| == |form.files|
    requires !Authorized(session) || form.files == []
    ensures var o := PostOutcome(rows, nextId, session, form, ticks);
      && o.rows == rows && o.nextId == nextId
      && (if !Authorized(session) then o.response == Unauthorized && Status(o.response) == 401
          else o.response == NoFilesUploaded && Status(o.response) == 400)
  {
  }

  /** A `folderId` that is not a number makes the first upload throw: nothing is created. */
  lemma NotANumberFolderCreatesNothing(rows: seq<File>, nextId: int, session: Option<UserId>, form: FormData, ticks: seq<Tick>)
    requires |ticks| == |form.files| && Authorized(session) && form.files != []
    requires ParseFolderParam(form.folderId).NotANumber?
    ensures var o := PostOutcome(rows, nextId, session, form, ticks);
      o.response == UploadFailed && o.rows == rows && o.nextId == nextId
  {
  }

  /**
   * An uploaded file lands in the folder it was sent to: `GET` on that folder
   * (or on the root, when none was given) selects it.
   */
  lemma UploadedFileIsInItsFolder(rows: seq<File>, nextId: int, session: Option<UserId>, form: FormData, ticks: seq<Tick>, i: nat)
    requires |ticks| == |form.files| && i < |form.files|
    requires PostOutcome(rows, nextId, session, form, ticks).response.Uploaded?
    requires i < |PostOutcome(rows, nextId, session, form, ticks).response.files|
    requires var p := ParseFolderParam(form.folderId); p.NoFolder? || (p.FolderNumber? && p.n != 0)
    ensures var f := PostOutcome(rows, nextId, session, form, ticks).response.files[i];
      Matches(InFolder(FolderValue(ParseFolderParam(form.folderId))), session.value, f)
  {
    UploadedRowCopiesTheFile(rows, nextId, session, form, ticks, i);
  }

  /** One turn of the loop: the run from upload `i` on, in terms of upload `i` and the run after it. */
  lemma RunBatchStep(rows: seq<File>, nextId: int, uploads: seq<Upload>, folder: FolderParam, userId: UserId, ticks: seq<Tick>, i: nat)
    requires |ticks| == |uploads| && i < |uploads|
    ensures var b := RunBatch(rows, nextId, uploads[i..], folder, userId, ticks[i..]);
      match Parsed(uploads[i], folder, userId, ticks[i].routeNow)
      case None => b == Batch([], nextId, true)
      case Some(n) =>
        match InsertOutcome(rows, nextId, n, ticks[i].storeNow)
        case Failure(_) => b == Batch([], nextId + 1, true)
        case Success(f) =>
          var rest := RunBatch(rows + [f], nextId + 1, uploads[i + 1..], folder, userId, ticks[i + 1..]);
          b == Batch([f] + rest.created, rest.nextId, rest.failed)
  {
    assert uploads[i..][0] == uploads[i] && ticks[i..][0] == ticks[i];
    assert uploads[i..][1..] == uploads[i + 1..] && ticks[i..][1..] == ticks[i + 1..];
  }

  /** The loop is on track: the rows created so far, then the run from upload `i` on, make up the whole run `goal`. */
  ghost predicate OnTrack(goal: Batch, created: seq<File>, rows: seq<File>, nextId: int,
                          uploads: seq<Upload>, folder: FolderParam, userId: UserId, ticks: seq<Tick>, i: nat)
    requires |ticks| == |uploads| && i <= |uploads|
  {
    var rest := RunBatch(rows, nextId, uploads[i..], folder, userId, ticks[i..]);
    goal == Batch(created + rest.created, rest.nextId, rest.failed)
  }

  /** When upload `i` does not parse, the run ends there, failed, with the sequence unmoved. */
  lemma ParseFailureEndsTheRun(goal: Batch, created: seq<File>, rows: seq<File>, nextId: int,
                               uploads: seq<Upload>, folder: FolderParam, userId: UserId, ticks: seq<Tick>, i: nat)
    requires |ticks| == |uploads| && i < |uploads|
    requires OnTrack(goal, created, rows, nextId, uploads, folder, userId, ticks, i)
    requires Parsed(uploads[i], folder, userId, ticks[i].routeNow).None?
    ensures goal == Batch(created, nextId, true)
  {
    RunBatchStep(rows, nextId, uploads, folder, userId, ticks, i);
  }

  /** When the insert of upload `i` throws, the run ends there, failed, having used one more sequence value. */
  lemma InsertFailureEndsTheRun(goal: Batch, created: seq<File>, rows: seq<File>, nextId: int,
                                uploads: seq<Upload>, folder: FolderParam, userId: UserId, ticks: seq<Tick>, i: nat)
    requires |ticks| == |uploads| && i < |uploads|
    requires OnTrack(goal, created, rows, nextId, uploads, folder, userId, ticks, i)
    requires var p := Parsed(uploads[i], folder, userId, ticks[i].routeNow);
      p.Some? && InsertOutcome(rows, nextId, p.value, ticks[i].storeNow).Failure?
    ensures goal == Batch(created, nextId + 1, true)
  {
    RunBatchStep(rows, nextId, uploads, folder, userId, ticks, i);
  }

  /** One turn of the loop that inserts upload `i` as `f`: the run from `i` on starts with `f`. */
  lemma RunBatchInserted(rows: seq<File>, nextId: int, uploads: seq<Upload>, folder: FolderParam, userId: UserId, ticks: seq<Tick>,
                         i: nat, n: InsertFile, f: File)
    requires |ticks| == |uploads| && i < |uploads|
    requires Parsed(uploads[i], folder, userId, ticks[i].routeNow) == Some(n)
    requires InsertOutcome(rows, nextId, n, ticks[i].storeNow) == Success(f)
    ensures var rest := RunBatch(rows + [f], nextId + 1, uploads[i + 1..], folder, userId, ticks[i + 1..]);
      RunBatch(rows, nextId, uploads[i..], folder, userId, ticks[i..]) == Batch([f] + rest.created, rest.nextId, rest.failed)
  {
    assert uploads[i..][0] == uploads[i] && ticks[i..][0] == ticks[i];
    assert uploads[i..][1..] == uploads[i + 1..] && ticks[i..][1..] == ticks[i + 1..];
    RunBatchHead(rows, nextId, uploads[i..], folder, userId, ticks[i..], n, f);
  }

  /** The first turn of a run whose first upload is inserted as `f`. */
  lemma RunBatchHead(rows: seq<File>, nextId: int, uploads: seq<Upload>, folder: FolderParam, userId: UserId, ticks: seq<Tick>,
                     n: InsertFile, f: File)
    requires |ticks| == |uploads| && uploads != []
    requires Parsed(uploads[0], folder, userId, ticks[0].routeNow) == Some(n)
    requires InsertOutcome(rows, nextId, n, ticks[0].storeNow) == Success(f)
    ensures var rest := RunBatch(rows + [f], nextId + 1, uploads[1..], folder, userId, ticks[1..]);
      RunBatch(rows, nextId, uploads, folder, userId, ticks) == Batch([f] + rest.created, rest.nextId, rest.failed)
  {
  }

  /** When the run from upload `i` starts with `f`, the loop is on track at `i + 1` with `f` appended to what was created and to the rows. */
  lemma InsertKeepsOnTrack(goal: Batch, created: seq<File>, rows: seq<File>, nextId: int,
                           uploads: seq<Upload>, folder: FolderParam, userId: UserId, ticks: seq<Tick>, i: nat, f: File,
                           created': seq<File>, rows': seq<File>, nextId': int)
    requires |ticks| == |uploads| && i < |uploads|
    requires OnTrack(goal, created, rows, nextId, uploads, folder, userId, ticks, i)
    requires var rest := RunBatch(rows + [f], nextId + 1, uploads[i + 1..], folder, userId, ticks[i + 1..]);
      RunBatch(rows, nextId, uploads[i..], folder, userId, ticks[i..]) == Batch([f] + rest.created, rest.nextId, rest.failed)
    requires created' == created + [f] && rows' == rows + [f] && nextId' == nextId + 1
    ensures OnTrack(goal, created', rows', nextId', uploads, folder, userId, ticks, i + 1)
  {
    ContinueWith(goal, created, RunBatch(rows, nextId, uploads[i..], folder, userId, ticks[i..]), f,
                 RunBatch(rows', nextId', uploads[i + 1..], folder, userId, ticks[i + 1..]));
  }

  /** A run that starts with `f`, continued after `created`, is the rest continued after `created + [f]`. */
  lemma ContinueWith(goal: Batch, created: seq<File>, b: Batch, f: File, rest: Batch)
    requires goal == Batch(created + b.created, b.nextId, b.failed)
    requires b == Batch([f] + rest.created, rest.nextId, rest.failed)
    ensures goal == Batch((created + [f]) + rest.created, rest.nextId, rest.failed)
  {
    assert created + ([f] + rest.created) == (created + [f]) + rest.created;
  }

  /** Appending a created row to the table keeps the table equal to the old rows followed by the created ones. */
  lemma AppendCreated(rows0: seq<File>, created: seq<File>, rows: seq<File>, f: File, created': seq<File>, rows': seq<File>)
    requires rows == rows0 + created && created' == created + [f] && rows' == rows + [f]
    ensures rows' == rows0 + created'
  {
    assert (rows0 + created) + [f] == rows0 + (created + [f]);
  }

  /** Past the last upload, the run is exactly what was created. */
  lemma RunComplete(goal: Batch, created: seq<File>, rows: seq<File>, nextId: int,
                    uploads: seq<Upload>, folder: FolderParam, userId: UserId, ticks: seq<Tick>)
    requires |ticks| == |uploads|
    requires OnTrack(goal, created, rows, nextId, uploads, folder, userId, ticks, |uploads|)
    ensures goal == Batch(created, nextId, false)
  {
    assert uploads[|uploads|..] == [] && ticks[|uploads|..] == [];
    assert created + [] == created;
  }

  /** `POST /api/files`: authorises, refuses an empty batch, then creates one row per upload until one throws. */
  method Post(table: FileTable, session: Option<UserId>, body: Option<FormData>, ticks: seq<Tick>) returns (response: PostResponse)
    requires table.Valid() && (body.Some? ==> |ticks| == |body.value.files|)
    modifies table
    ensures table.Valid()
    ensures RequestOutcome(old(table.rows), old(table.nextId), session, body, ticks)
         == Outcome(response, table.rows, table.nextId)
  {
    ghost var rows0 := table.rows;
    ghost var id0 := table.nextId;
    if !Authorized(session) {
      return Unauthorized;
    }
    if body.None? {
      return UploadFailed;
    }
    var form := body.value;
    var userId := session.value;
    var folder := ParseFolderParam(form.folderId);
    if |form.files| == 0 {
      return NoFilesUploaded;
    }
    ghost var goal := RunBatch(rows0, id0, form.files, folder, userId, ticks);
    assert OnTrack(goal, [], rows0, id0, form.files, folder, userId, ticks, 0) by {
      assert form.files[0..] == form.files && ticks[0..] == ticks;
    }
    var created: seq<File> := [];
    var i := 0;
    while i < |form.files|
      invariant 0 <= i <= |form.files|
      invariant table.Valid()
      invariant table.rows == rows0 + created
      invariant OnTrack(goal, created, table.rows, table.nextId, form.files, folder, userId, ticks, i)
    {
      var parsed := Parsed(form.files[i], folder, userId, ticks[i].routeNow);
      if parsed.None? {
        ParseFailureEndsTheRun(goal, created, table.rows, table.nextId, form.files, folder, userId, ticks, i);
        return UploadFailed;
      }
      ghost var rowsBefore, idBefore := table.rows, table.nextId;
      assert InsertFileBinds(parsed.value);
      var r := table.CreateFile(parsed.value, ticks[i].storeNow);
      if r.Failure? {
        InsertFailureEndsTheRun(goal, created, rowsBefore, idBefore, form.files, folder, userId, ticks, i);
        return UploadFailed;
      }
      ghost var createdBefore := created;
      created := created + [r.value];
      AppendCreated(rows0, createdBefore, rowsBefore, r.value, created, table.rows);
      RunBatchInserted(rowsBefore, idBefore, form.files, folder, userId, ticks, i, parsed.value, r.value);
      InsertKeepsOnTrack(goal, createdBefore, rowsBefore, idBefore, form.files, folder, userId, ticks, i, r.value,
                         created, table.rows, table.nextId);
      i := i + 1;
    }
    RunComplete(goal, created, table.rows, table.nextId, form.files, folder, userId, ticks);
    response := Uploaded(created);
  }

  /** What `GET /api/files` answers. */
  datatype GetResponse =
    | GetUnauthorized      // 401 "Unauthorized"
    | FetchFailed          // 500 "Failed to fetch files"
    | Files(files: seq<File>)

  function GetStatus(r: GetResponse): int {
    match r
    case GetUnauthorized => 401
    case FetchFailed => 500
    case Files(_) => 200
  }

  /**
   * The folder `GET` lists: `getFilesByFolder` treats a falsy id (`null`,
   * `NaN`, `0`) as the root.
   */
  function ListedFolder(folder: FolderParam): (r: Option<int>)
    ensures r.Some? <==> folder.FolderNumber? && folder.n != 0
  {
    match folder
    case FolderNumber(n) => if n != 0 then Some(n) else None
    case _ => None
  }

  /**
   * `GET /api/files`: the first page (50 rows, by name) of the folder named
   * by `folderId`; 500 when the listing throws, which it does for a folder
   * number outside `integer`.
   */
  function Get(rows: seq<File>, session: Option<UserId>, folderId: Option<string>): (r: GetResponse)
    ensures r.GetUnauthorized? <==> !Authorized(session)
    ensures r.FetchFailed? <==>
      Authorized(session) && ListedFolder(ParseFolderParam(folderId)).Some? && !IsInt4(ListedFolder(ParseFolderParam(folderId)).value)
    ensures r.Files? ==> |r.files| == Min(50, Count(rows, InFolder(FolderValue(ParseFolderParam(folderId))), session.value))
    ensures r.Files? ==> Ordering.SortedBy(r.files, ColumnKey(Name), false)
    ensures r.Files? ==> forall f :: f in r.files ==>
      && f in rows && f.userId == session.value && f.isTrashed == Some(false)
      && f.folderId == ListedFolder(ParseFolderParam(folderId))
  {
    if !Authorized(session) then GetUnauthorized
    else
      var sel := InFolder(FolderValue(ParseFolderParam(folderId)));
      DefaultListing(rows, session.value, sel);
      match List(rows, session.value, sel, NoOptions)
      case Failure(_) => FetchFailed
      case Success(files) => Files(files)
  }

  /**
   * A `folderId` written in decimal that lies outside the `integer` range,
   * `?folderId=2147483648` say, makes the listing throw: the route answers 500.
   */
  lemma FolderPastIntegerFails(rows: seq<File>, session: Option<UserId>, n: int)
    requires Authorized(session) && !IsInt4(n)
    ensures Get(rows, session, Some(JsText.DecimalString(n))) == FetchFailed
    ensures GetStatus(Get(rows, session, Some(JsText.DecimalString(n)))) == 500
  {
    var folderId := Some(JsText.DecimalString(n));
    JsText.ParseDecimalString(n);
    assert ParseFolderParam(folderId) == FolderNumber(n);
    assert ListedFolder(ParseFolderParam(folderId)) == Some(n);
    var g := Get(rows, session, folderId);
    assert g.FetchFailed?;
  }

  /** A `folderId` that is not a number, or is `0`, lists the root, as no `folderId` does. */
  lemma FalsyFolderListsRoot(rows: seq<File>, session: Option<UserId>, folderId: Option<string>)
    requires ListedFolder(ParseFolderParam(folderId)).None?
    ensures Get(rows, session, folderId) == Get(rows, session, None)
  {
    if Authorized(session) {
      var a := InFolder(FolderValue(ParseFolderParam(folderId)));
      var b := InFolder(None);
      assert forall f :: Matches(a, session.value, f) == Matches(b, session.value, f);
      SameMatchesSameSelect(rows, a, b, session.value);
    }
  }
}
