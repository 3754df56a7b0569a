/** The handlers of app/routes/file_routes.py.  Each first looks up the caller
    named by the access token, then applies its role gate, and only then looks
    at files; upload is the one handler that changes anything. */
module FileRoutes {
  import opened Wrappers
  import opened Http
  import opened Models
  import FileService

  /** The caller's user row, looked up by the id the access token carries. */
  function Caller(users: seq<User>, userId: nat): (caller: Option<User>)
    ensures caller.None? <==> forall j :: 0 <= j < |users| ==> users[j].id != userId
    ensures caller.Some? ==> caller.value in users && caller.value.id == userId
  {
    match UserById(users, userId)
    case None => None
    case Some(k) => Some(users[k])
  }

  /** The multipart field `file`: the name the client sent, and the bytes. */
  datatype FilePart = FilePart(filename: string, content: seq<Byte>)

  /** Upload, for operations users.  `secureFilename` is werkzeug's
      `secure_filename`; `stem` is the fresh UUID that names the stored file
      and `downloadToken` the fresh UUID the new row's column default draws. */
  method Upload(db: Database, userId: nat, part: Option<FilePart>, secureFilename: string -> string,
                stem: string, downloadToken: string)
    returns (status: Status, fileId: Option<nat>)
    requires db.Valid()
    requires forall name :: name in db.uploads ==> !(stem <= name)
    requires forall j :: 0 <= j < |db.files| ==> db.files[j].downloadToken != downloadToken
    modifies db
    ensures db.Valid()
    ensures db.users == old(db.users)
    ensures status in {NotFound, Forbidden, BadRequest, InternalServerError, Created}
    ensures status == NotFound <==> Caller(db.users, userId).None?
    ensures status == Forbidden <==> Caller(db.users, userId).Some? && Caller(db.users, userId).value.role != "operations"
    ensures status == BadRequest <==>
      Caller(db.users, userId).Some? && Caller(db.users, userId).value.role == "operations" &&
      (part.None? || part.value.filename == "" || !FileService.AllowedFile(part.value.filename))
    ensures status == InternalServerError <==>
      Caller(db.users, userId).Some? && Caller(db.users, userId).value.role == "operations" &&
      part.Some? && FileService.AllowedFile(part.value.filename) &&
      FileService.GetFileExtension(secureFilename(part.value.filename)).None?
    ensures status != Created ==> fileId.None? && db.files == old(db.files) && db.uploads == old(db.uploads)
    ensures status == Created ==>
      var name := secureFilename(part.value.filename);
      var ext := FileService.GetFileExtension(name).value;
      var f := File(|old(db.files)| + 1, stem + "." + ext, name, ext, userId, downloadToken);
      fileId == Some(f.id) &&
      db.files == old(db.files) + [f] &&
      db.uploads == old(db.uploads)[f.filename := part.value.content]
    ensures (status == Created &&
             FileService.GetFileExtension(secureFilename(part.value.filename)) ==
             FileService.GetFileExtension(part.value.filename)) ==>
      db.files[|db.files| - 1].fileType in FileService.ALLOWED_EXTENSIONS
  {
    var caller := Caller(db.users, userId);
    if caller.None? {
      return NotFound, None;
    }
    if caller.value.role != "operations" {
      return Forbidden, None;
    }
    if part.None? {
      return BadRequest, None;
    }
    var upload := part.value;
    if upload.filename == "" {
      return BadRequest, None;
    }
    if !FileService.AllowedFile(upload.filename) {
      return BadRequest, None;
    }
    var originalFilename := secureFilename(upload.filename);
    var extension := FileService.GetFileExtension(originalFilename);
    if extension.None? {
      // `get_file_extension` raises IndexError: the sanitised name lost its dot.
      return InternalServerError, None;
    }
    var uniqueFilename := stem + "." + extension.value;
    assert uniqueFilename !in db.uploads by {
      assert stem <= uniqueFilename;
    }
    FileService.ExtensionOfJoin(stem, extension.value);
    FileService.LowerOfLower(extension.value);
    var newFile := File(|db.files| + 1, uniqueFilename, originalFilename, extension.value, userId, downloadToken);
    db.AddFile(newFile, upload.content);
    status, fileId := Created, Some(newFile.id);
    assert db.files[|db.files| - 1] == newFile;
  }

  /** The list comprehension over `to_dict`: one summary per file, in table order. */
  function Summaries(users: seq<User>, files: seq<File>): (entries: seq<FileSummary>)
    requires OwnersExist(users, files)
    ensures |entries| == |files|
    ensures forall i :: 0 <= i < |files| ==>
      entries[i].id == files[i].id &&
      entries[i].filename == files[i].originalFilename &&
      entries[i].fileType == files[i].fileType &&
      entries[i].uploadedBy == users[UserById(users, files[i].userId).value].email
  {
    if files == [] then []
    else
      var owner := users[UserById(users, files[0].userId).value];
      assert OwnersExist(users, files[1..]) by {
        assert forall i :: 0 <= i < |files| - 1 ==> files[1..][i] == files[i + 1];
      }
      [ToDict(files[0], owner)] + Summaries(users, files[1..])
  }

  datatype ListResponse = ListRefused(status: Status) | Listing(entries: seq<FileSummary>)

  /** List files, for client users. */
  function ListFiles(users: seq<User>, files: seq<File>, userId: nat): (r: ListResponse)
    requires OwnersExist(users, files)
    ensures r == ListRefused(NotFound) <==> Caller(users, userId).None?
    ensures r == ListRefused(Forbidden) <==> Caller(users, userId).Some? && !IsClientUser(Caller(users, userId).value)
    ensures r.Listing? <==> Caller(users, userId).Some? && IsClientUser(Caller(users, userId).value)
    ensures r.Listing? ==> r.entries == Summaries(users, files)
  {
    match Caller(users, userId)
    case None => ListRefused(NotFound)
    case Some(user) =>
      if !IsClientUser(user) then ListRefused(Forbidden)
      else Listing(Summaries(users, files))
  }

  /** A download link is modelled by the token it carries. */
  datatype LinkResponse = LinkRefused(status: Status) | Link(token: string)

  /** Get a download link for a file, for client users.  The link carries the
      token stored with the file; nothing is rotated or recorded. */
  function GetDownloadLink(users: seq<User>, files: seq<File>, userId: nat, fileId: nat): (r: LinkResponse)
    ensures r == LinkRefused(Forbidden) <==> Caller(users, userId).Some? && !IsClientUser(Caller(users, userId).value)
    ensures r == LinkRefused(NotFound) <==>
      Caller(users, userId).None? ||
      (IsClientUser(Caller(users, userId).value) && forall j :: 0 <= j < |files| ==> files[j].id != fileId)
    ensures r.Link? <==>
      Caller(users, userId).Some? && IsClientUser(Caller(users, userId).value) &&
      exists i :: 0 <= i < |files| && files[i].id == fileId
    ensures r.Link? ==> exists i :: 0 <= i < |files| && files[i].id == fileId && r.token == files[i].downloadToken
  {
    match Caller(users, userId)
    case None => LinkRefused(NotFound)
    case Some(user) =>
      if !IsClientUser(user) then LinkRefused(Forbidden)
      else
        match FileById(files, fileId)
        case None => LinkRefused(NotFound)
        case Some(i) => Link(files[i].downloadToken)
  }

  /** A served download: the stored file's name in the upload folder, the name
      the client receives it under, and the bytes. */
  datatype DownloadResponse =
    | DownloadRefused(status: Status)
    | Served(storageName: string, downloadName: string, content: seq<Byte>)

  /** Download the file a token names, for client users.  A storage name
      missing from the upload folder is a 404 from `send_from_directory`. */
  function DownloadFile(users: seq<User>, files: seq<File>, uploads: map<string, seq<Byte>>, userId: nat, token: string)
    : (r: DownloadResponse)
    ensures r.DownloadRefused? ==> r.status in {NotFound, Forbidden}
    ensures Caller(users, userId).None? ==> r == DownloadRefused(NotFound)
    ensures r.Served? ==> Caller(users, userId).Some? && IsClientUser(Caller(users, userId).value)
    ensures r == DownloadRefused(Forbidden) <==> Caller(users, userId).Some? && !IsClientUser(Caller(users, userId).value)
    ensures (Caller(users, userId).Some? && IsClientUser(Caller(users, userId).value) &&
             forall j :: 0 <= j < |files| ==> files[j].downloadToken != token) ==>
      r == DownloadRefused(NotFound)
    ensures r.Served? ==>
      exists i :: 0 <= i < |files| && files[i].downloadToken == token && files[i].filename in uploads &&
        r == Served(files[i].filename, files[i].originalFilename, uploads[files[i].filename])
  {
    match Caller(users, userId)
    case None => DownloadRefused(NotFound)
    case Some(user) =>
      if !IsClientUser(user) then DownloadRefused(Forbidden)
      else
        match FileByToken(files, token)
        case None => DownloadRefused(NotFound)
        case Some(i) =>
          var f := files[i];
          if f.filename !in uploads then DownloadRefused(NotFound)
          else Served(f.filename, f.originalFilename, uploads[f.filename])
  }

  // ---------------------------------------------------------------------
  // Properties relating the handlers

  /** An operations user is refused a download before the token is looked at,
      even for a token no file carries. */
  lemma OpsCannotDownload(users: seq<User>, files: seq<File>, uploads: map<string, seq<Byte>>, userId: nat, token: string)
    requires Caller(users, userId).Some? && IsOpsUser(Caller(users, userId).value)
    ensures DownloadFile(users, files, uploads, userId, token) == DownloadRefused(Forbidden)
  {
    RolesExclusive(Caller(users, userId).value);
  }

  /** Under the unique constraint on `download_token`, a client presenting a
      file's token is served that file, by storage name, under its original
      name, with the bytes stored for it. */
  lemma ClientDownloadsByToken(users: seq<User>, files: seq<File>, uploads: map<string, seq<Byte>>, userId: nat, i: nat)
    requires UniqueDownloadTokens(files) && i < |files|
    requires Caller(users, userId).Some? && IsClientUser(Caller(users, userId).value)
    requires files[i].filename in uploads
    ensures DownloadFile(users, files, uploads, userId, files[i].downloadToken) ==
      Served(files[i].filename, files[i].originalFilename, uploads[files[i].filename])
  {
    FileByTokenUnique(files, i);
  }

  /** The token a download link carries downloads the file the link was asked
      for, under its original name. */
  lemma LinkThenDownload(users: seq<User>, files: seq<File>, uploads: map<string, seq<Byte>>, userId: nat, fileId: nat)
    requires FilesWellFormed(users, files, uploads)
    requires GetDownloadLink(users, files, userId, fileId).Link?
    ensures var i := FileById(files, fileId).value;
      DownloadFile(users, files, uploads, userId, GetDownloadLink(users, files, userId, fileId).token) ==
      Served(files[i].filename, files[i].originalFilename, uploads[files[i].filename])
  {
    var i := FileById(files, fileId).value;
    FileByTokenUnique(files, i);
  }

  /** A file just registered, with an unused token and its bytes in the upload
      folder, downloads to a client as exactly those bytes. */
  lemma UploadedFileDownloads(users: seq<User>, files: seq<File>, uploads: map<string, seq<Byte>>,
                              f: File, content: seq<Byte>, userId: nat)
    requires forall j :: 0 <= j < |files| ==> files[j].downloadToken != f.downloadToken
    requires Caller(users, userId).Some? && IsClientUser(Caller(users, userId).value)
    ensures DownloadFile(users, files + [f], uploads[f.filename := content], userId, f.downloadToken) ==
      Served(f.filename, f.originalFilename, content)
  {
    var after := files + [f];
    assert after[|files|] == f;
    assert forall j :: 0 <= j < |files| ==> after[j] == files[j];
  }

  /** Registering one file adds exactly one entry, its summary, at the end of
      the listing. */
  lemma {:induction false} SummariesOfAppend(users: seq<User>, files: seq<File>, f: File)
    requires OwnersExist(users, files) && UserById(users, f.userId).Some?
    ensures OwnersExist(users, files + [f])
    ensures Summaries(users, files + [f]) ==
      Summaries(users, files) + [ToDict(f, users[UserById(users, f.userId).value])]
  {
    var after := files + [f];
    assert forall j :: 0 <= j < |files| ==> after[j] == files[j];
    assert after[|files|] == f;
  }
}
