/** The `User` and `File` tables of app/models.py, the `to_dict` projection,
    and the database that holds the tables together with the upload folder. */
module Models {
  import opened Wrappers
  import opened Query
  import FileService

  /** The two roles; a user row stores the role's string value. */
  datatype UserRole = Ops | Client
  {
    function Value(): (v: string)
      ensures v in {"operations", "client"}
      ensures v == "operations" <==> this.Ops?
    {
      match this
      case Ops => "operations"
      case Client => "client"
    }
  }

  type Byte = x: int | 0 <= x < 256

  /** A row of the `user` table.  `passwordHash` is the bcrypt hash, opaque
      here; `verificationToken` is `None` once the email is verified. */
  datatype User = User(
    id: nat,
    email: string,
    passwordHash: string,
    role: string,
    isVerified: bool,
    verificationToken: Option<string>)

  /** A row of the `file` table.  `filename` is the generated storage name on
      disk, `originalFilename` the sanitised name the uploader gave. */
  datatype File = File(
    id: nat,
    filename: string,
    originalFilename: string,
    fileType: string,
    userId: nat,
    downloadToken: string)

  /** What `File.to_dict` shows a client. */
  datatype FileSummary = FileSummary(
    id: nat,
    filename: string,
    fileType: string,
    uploadedBy: string)

  /** `User.__init__`, with the row id the table gives the new row.  The
      constructor marks the user verified, overriding the column default
      `False`, and issues a verification token. */
  function NewUser(id: nat, email: string, passwordHash: string, role: string, token: string): (u: User)
    ensures u.id == id && u.email == email && u.passwordHash == passwordHash && u.role == role
    ensures u.isVerified
    ensures u.verificationToken == Some(token)
  {
    User(id, email, passwordHash, role, true, Some(token))
  }

  /** The row a new user gets under the column default `is_verified = False`:
      unverified, holding its verification token.  This is what the
      constructor would produce without its override. */
  function UnverifiedUser(id: nat, email: string, passwordHash: string, role: string, token: string): (u: User)
    ensures u.id == id && u.email == email && u.passwordHash == passwordHash && u.role == role
    ensures !u.isVerified
    ensures u.verificationToken == Some(token)
  {
    User(id, email, passwordHash, role, false, Some(token))
  }

  /** The update email verification applies to a row: verified, token cleared,
      every other column kept. */
  function Verified(u: User): (v: User)
    ensures v.isVerified && v.verificationToken.None?
    ensures v.id == u.id && v.email == u.email && v.passwordHash == u.passwordHash && v.role == u.role
  {
    u.(isVerified := true, verificationToken := None)
  }

  /** `is_ops_user`: the stored role is the operations role's value. */
  function IsOpsUser(u: User): (ops: bool)
    ensures ops <==> u.role == "operations"
  {
    u.role == UserRole.Ops.Value()
  }

  /** `is_client_user`: the stored role is the client role's value. */
  function IsClientUser(u: User): (client: bool)
    ensures client <==> u.role == "client"
  {
    u.role == UserRole.Client.Value()
  }

  /** No user is both an operations user and a client user. */
  lemma RolesExclusive(u: User)
    ensures !(IsOpsUser(u) && IsClientUser(u))
  {
  }

  /** `File.to_dict`, given the owning user. */
  function ToDict(f: File, owner: User): (d: FileSummary)
    requires owner.id == f.userId
    ensures d.id == f.id && d.filename == f.originalFilename && d.fileType == f.fileType
    ensures d.uploadedBy == owner.email
  {
    FileSummary(f.id, f.originalFilename, f.fileType, owner.email)
  }

  // ---------------------------------------------------------------------
  // Lookups

  /** `User.query.get(id)` */
  function UserById(users: seq<User>, id: nat): (r: Option<nat>)
    ensures r.Some? ==> r.value < |users| && users[r.value].id == id
    ensures r.None? <==> forall j :: 0 <= j < |users| ==> users[j].id != id
  {
    First(users, (u: User) => u.id == id)
  }

  /** `User.query.filter_by(email=email).first()` */
  function UserByEmail(users: seq<User>, email: string): (r: Option<nat>)
    ensures r.Some? ==> r.value < |users| && users[r.value].email == email
    ensures r.Some? ==> forall j :: 0 <= j < r.value ==> users[j].email != email
    ensures r.None? <==> forall j :: 0 <= j < |users| ==> users[j].email != email
  {
    First(users, (u: User) => u.email == email)
  }

  /** `User.query.filter_by(verification_token=token).first()` */
  function UserByVerificationToken(users: seq<User>, token: string): (r: Option<nat>)
    ensures r.Some? ==> r.value < |users| && users[r.value].verificationToken == Some(token)
    ensures r.None? <==> forall j :: 0 <= j < |users| ==> users[j].verificationToken != Some(token)
  {
    First(users, (u: User) => u.verificationToken == Some(token))
  }

  /** `File.query.get(id)` */
  function FileById(files: seq<File>, id: nat): (r: Option<nat>)
    ensures r.Some? ==> r.value < |files| && files[r.value].id == id
    ensures r.None? <==> forall j :: 0 <= j < |files| ==> files[j].id != id
  {
    First(files, (f: File) => f.id == id)
  }

  /** `File.query.filter_by(download_token=token).first()` */
  function FileByToken(files: seq<File>, token: string): (r: Option<nat>)
    ensures r.Some? ==> r.value < |files| && files[r.value].downloadToken == token
    ensures r.Some? ==> forall j :: 0 <= j < r.value ==> files[j].downloadToken != token
    ensures r.None? <==> forall j :: 0 <= j < |files| ==> files[j].downloadToken != token
  {
    First(files, (f: File) => f.downloadToken == token)
  }

  // ---------------------------------------------------------------------
  // Table invariants

  /** Row ids are assigned 1, 2, 3, ... in insertion order and rows are never deleted. */
  ghost predicate UsersNumbered(users: seq<User>)
  {
    forall i :: 0 <= i < |users| ==> users[i].id == i + 1
  }

  /** The unique constraint on `email`. */
  ghost predicate UniqueEmails(users: seq<User>)
  {
    forall i, j :: 0 <= i < j < |users| ==> users[i].email != users[j].email
  }

  /** Verification tokens are fresh UUIDs: no two users hold the same one. */
  ghost predicate UniqueVerificationTokens(users: seq<User>)
  {
    forall i, j :: 0 <= i < j < |users| && users[i].verificationToken.Some? ==>
      users[i].verificationToken != users[j].verificationToken
  }

  ghost predicate UsersWellFormed(users: seq<User>)
  {
    UsersNumbered(users) && UniqueEmails(users) && UniqueVerificationTokens(users)
  }

  ghost predicate FilesNumbered(files: seq<File>)
  {
    forall i :: 0 <= i < |files| ==> files[i].id == i + 1
  }

  /** The unique constraint on `download_token`. */
  ghost predicate UniqueDownloadTokens(files: seq<File>)
  {
    forall i, j :: 0 <= i < j < |files| ==> files[i].downloadToken != files[j].downloadToken
  }

  /** Storage names are fresh UUIDs: no two files share one. */
  ghost predicate UniqueStorageNames(files: seq<File>)
  {
    forall i, j :: 0 <= i < j < |files| ==> files[i].filename != files[j].filename
  }

  /** The foreign key `user_id`: every file's owner is a row of the user table. */
  ghost predicate OwnersExist(users: seq<User>, files: seq<File>)
  {
    forall i :: 0 <= i < |files| ==> UserById(users, files[i].userId).Some?
  }

  /** Every registered file's bytes are in the upload folder under its storage
      name, and the storage name's extension is the file's type. */
  ghost predicate FilesStored(files: seq<File>, uploads: map<string, seq<Byte>>)
  {
    forall i :: 0 <= i < |files| ==>
      files[i].filename in uploads &&
      FileService.GetFileExtension(files[i].filename) == Some(files[i].fileType)
  }

  ghost predicate FilesWellFormed(users: seq<User>, files: seq<File>, uploads: map<string, seq<Byte>>)
  {
    FilesNumbered(files) && UniqueDownloadTokens(files) && UniqueStorageNames(files) &&
    OwnersExist(users, files) && FilesStored(files, uploads)
  }

  /** With ids numbered by position, `User.query.get(id)` finds row `id - 1`. */
  lemma UserByIdNumbered(users: seq<User>, id: nat)
    requires UsersNumbered(users)
    ensures UserById(users, id) == if 1 <= id <= |users| then Some(id - 1) else None
  {
    if 1 <= id <= |users| {
      FirstOfOnly(users, id - 1, (u: User) => u.id == id);
    }
  }

  /** Under the unique constraint on `email`, the lookup by email finds the one
      user with that email. */
  lemma UserByEmailUnique(users: seq<User>, i: nat)
    requires UniqueEmails(users) && i < |users|
    ensures UserByEmail(users, users[i].email) == Some(i)
  {
    var r := UserByEmail(users, users[i].email);
    assert r.Some?;
  }

  /** Under the unique constraint on `download_token`, the lookup by token
      finds the one file with that token. */
  lemma FileByTokenUnique(files: seq<File>, i: nat)
    requires UniqueDownloadTokens(files) && i < |files|
    ensures FileByToken(files, files[i].downloadToken) == Some(i)
  {
    var r := FileByToken(files, files[i].downloadToken);
    assert r.Some?;
  }

  /** Adding a user with the next id, an unregistered email and an unused
      verification token keeps the tables well formed. */
  lemma AddUserWellFormed(users: seq<User>, files: seq<File>, uploads: map<string, seq<Byte>>, u: User)
    requires UsersWellFormed(users) && FilesWellFormed(users, files, uploads)
    requires u.id == |users| + 1
    requires forall j :: 0 <= j < |users| ==> users[j].email != u.email
    requires u.verificationToken.Some? ==> forall j :: 0 <= j < |users| ==> users[j].verificationToken != u.verificationToken
    ensures UsersWellFormed(users + [u]) && FilesWellFormed(users + [u], files, uploads)
  {
    var after := users + [u];
    assert forall j :: 0 <= j < |users| ==> after[j] == users[j];
    forall i | 0 <= i < |files|
      ensures UserById(after, files[i].userId).Some?
    {
      UserByIdNumbered(users, files[i].userId);
      UserByIdNumbered(after, files[i].userId);
    }
  }

  /** Marking a user verified and clearing its token keeps the tables well formed. */
  lemma MarkVerifiedWellFormed(users: seq<User>, files: seq<File>, uploads: map<string, seq<Byte>>, k: nat)
    requires UsersWellFormed(users) && FilesWellFormed(users, files, uploads)
    requires k < |users|
    ensures var after := users[k := Verified(users[k])];
      UsersWellFormed(after) && FilesWellFormed(after, files, uploads)
  {
    var after := users[k := Verified(users[k])];
    forall i | 0 <= i < |files|
      ensures UserById(after, files[i].userId).Some?
    {
      UserByIdNumbered(users, files[i].userId);
      UserByIdNumbered(after, files[i].userId);
    }
  }

  /** Registering a file with the next id, an unused download token, a storage
      name not yet in the upload folder, an existing owner and a storage name
      whose extension is its type keeps the tables well formed. */
  lemma AddFileWellFormed(users: seq<User>, files: seq<File>, uploads: map<string, seq<Byte>>, f: File, content: seq<Byte>)
    requires FilesWellFormed(users, files, uploads)
    requires f.id == |files| + 1
    requires forall j :: 0 <= j < |files| ==> files[j].downloadToken != f.downloadToken
    requires f.filename !in uploads
    requires UserById(users, f.userId).Some?
    requires FileService.GetFileExtension(f.filename) == Some(f.fileType)
    ensures FilesWellFormed(users, files + [f], uploads[f.filename := content])
  {
    AddFileRows(users, files, f);
    AddFileStored(files, uploads, f, content);
  }

  /** The row-level half of `AddFileWellFormed`: numbering, tokens, owners. */
  lemma AddFileRows(users: seq<User>, files: seq<File>, f: File)
    requires FilesNumbered(files) && UniqueDownloadTokens(files) && OwnersExist(users, files)
    requires f.id == |files| + 1
    requires forall j :: 0 <= j < |files| ==> files[j].downloadToken != f.downloadToken
    requires UserById(users, f.userId).Some?
    ensures FilesNumbered(files + [f]) && UniqueDownloadTokens(files + [f]) && OwnersExist(users, files + [f])
  {
    var after := files + [f];
    assert forall j :: 0 <= j < |files| ==> after[j] == files[j];
    assert after[|files|] == f;
  }

  /** The storage half of `AddFileWellFormed`: names unique, bytes stored. */
  lemma AddFileStored(files: seq<File>, uploads: map<string, seq<Byte>>, f: File, content: seq<Byte>)
    requires UniqueStorageNames(files) && FilesStored(files, uploads)
    requires f.filename !in uploads
    requires FileService.GetFileExtension(f.filename) == Some(f.fileType)
    ensures UniqueStorageNames(files + [f]) && FilesStored(files + [f], uploads[f.filename := content])
  {
    var after := files + [f];
    var stored := uploads[f.filename := content];
    forall i, j | 0 <= i < j < |after|
      ensures after[i].filename != after[j].filename
    {
      if j == |files| {
        assert files[i].filename in uploads;
      }
    }
    forall i | 0 <= i < |after|
      ensures after[i].filename in stored
      ensures FileService.GetFileExtension(after[i].filename) == Some(after[i].fileType)
    {
      if i < |files| {
        assert after[i] == files[i];
      }
    }
  }

  /** The application's database: the user and file tables, and the upload
      folder that maps storage names to the bytes written there. */
  class Database {
    var users: seq<User>
    var files: seq<File>
    var uploads: map<string, seq<Byte>>

    ghost predicate Valid()
      reads this
    {
      UsersWellFormed(users) && FilesWellFormed(users, files, uploads)
    }

    /** A database whose user table holds the given accounts (operations
        accounts have no signup route and are inserted directly) and no files. */
    constructor (accounts: seq<User>)
      requires UsersWellFormed(accounts)
      ensures Valid()
      ensures users == accounts && files == [] && uploads == map[]
    {
      users := accounts;
      files := [];
      uploads := map[];
    }

    /** Save a file's bytes under its storage name and commit its row. */
    method AddFile(f: File, content: seq<Byte>)
      requires Valid()
      requires f.id == |files| + 1
      requires forall j :: 0 <= j < |files| ==> files[j].downloadToken != f.downloadToken
      requires f.filename !in uploads
      requires UserById(users, f.userId).Some?
      requires FileService.GetFileExtension(f.filename) == Some(f.fileType)
      modifies this
      ensures Valid()
      ensures users == old(users)
      ensures files == old(files) + [f]
      ensures uploads == old(uploads)[f.filename := content]
    {
      AddFileWellFormed(users, files, uploads, f, content);
      uploads := uploads[f.filename := content];
      files := files + [f];
    }
  }
}
