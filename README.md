# Role-based file sharing: access rules and account lifecycle

A Dafny model of the core of a small Flask file-sharing service. Operations
users upload office documents. Client users sign up, verify their email, log
in, list the files, ask for a download link and download by the link's token.
The model covers three parts:

- the extension allow-list (`allowed_file`, `get_file_extension`) as pure
  string functions (`file_service.dfy`);
- the `User` and `File` rows, `to_dict`, and the database as a class
  `Database` holding the user table, the file table and the upload folder
  (storage name to bytes), with an invariant `Valid()` for the unique
  constraints, the row numbering, the foreign key and "every registered file
  has its bytes stored" (`models.dfy`);
- the route handlers (`auth_routes.dfy`, `file_routes.dfy`). Signup, email
  verification and upload change the database and are methods on it, proved
  against their full effect. Login, listing, download links and downloads only
  read it and are functions of the tables, so "changes nothing" holds by
  construction.

Each handler returns an HTTP status as a `Status` value, or a response
datatype that carries one. Lookups (`query.get`, `filter_by(...).first()`)
are `Query.First`: the first row that matches.

Foreign parts are parameters:
- bcrypt's hash is a `passwordHash` string, and its comparison is a
  `checkPassword` function;
- werkzeug's `secure_filename` is a `secureFilename` function;
- each `uuid4()` is a string argument, with a `requires` clause saying it is
  not in use, which stands in for the unique constraints;
- the access token's identity is a `userId` argument.

## Model

| member | source | states |
|---|---|---|
| `FileService.Lower` | app/services/file_service.py:6 | `lower()` keeps the length and lower-cases each character |
| `FileService.LastDot` | app/services/file_service.py:6 | finds the final dot: none exactly when the name has no dot, otherwise a dot with no dot after it |
| `FileService.RSplitOnce` | app/services/file_service.py:6 | `rsplit('.', 1)`: one part (the name itself) exactly when there is no dot; otherwise two parts that rejoin with a dot to the name, the second dot-free |
| `FileService.AllowedFile` | app/services/file_service.py:3-6 | an accepted name has a dot, and its extension as `get_file_extension` computes it is on the allow-list |
| `FileService.GetFileExtension` | app/services/file_service.py:8-10 | fails (IndexError) exactly when the name has no dot; otherwise the result is dot-free and lower-case |
| `FileService.AllowedFileOfJoin` | app/services/file_service.py:5-6 | only the final dot counts: `p.e` with dot-free `e` is accepted iff lower-cased `e` is `pptx`, `docx` or `xlsx`, whatever dots `p` has |
| `FileService.AllowedFileSplits` | app/services/file_service.py:5-6 | an accepted name is a prefix, a dot and a dot-free suffix whose lower-case form is allowed |
| `FileService.NoDotNotAllowed` | app/services/file_service.py:5 | a name without a dot is rejected |
| `FileService.SuffixOffListRejected` | app/services/file_service.py:5-6 | a name whose final suffix is lower-case, dot-free and off the list is rejected, whatever comes before the final dot |
| `FileServiceExamples.InnerDotIgnored` | app/services/file_service.py:6 | `a.txt.docx` is accepted |
| `FileServiceExamples.AllowedSuffixBeforeFinalDotIgnored` | app/services/file_service.py:6 | `a.docx.txt` is rejected |
| `FileServiceExamples.EmptySuffixRejected` | app/services/file_service.py:6 | `report.` (empty suffix) is rejected |
| `FileService.ExtensionOfJoin` | app/services/file_service.py:8-10 | for a dot-free `e`, the extension of `p.e` is `e` lower-cased whatever dots `p` has (so `r.DOCX` gives `docx`); for a lower-case `e` it is `e` itself |
| `FileService.AllowedFileOfLower` | app/services/file_service.py:6 | a name and its lower-cased form get the same verdict |
| `FileService.AllowedFileIgnoresCase` | app/services/file_service.py:6 | names equal up to letter case get the same verdict |
| `Models.UserRole.Value` | app/models.py:6-8 | `Ops` stores `operations` and `Client` stores `client` |
| `Models.NewUser` | app/models.py:20-25 | the constructor keeps email, hash and role, issues a verification token, and sets `is_verified` to true, overriding the column default |
| `Models.UnverifiedUser` | app/models.py:15-16 | the row the column default gives a new user: the same fields, unverified, holding its token |
| `Models.Verified` | app/routes/auth_routes.py:55-56 | verification sets `is_verified`, clears the token and keeps every other column |
| `Models.IsOpsUser` | app/models.py:30-31 | a user is an operations user exactly when its stored role is `operations` |
| `Models.IsClientUser` | app/models.py:33-34 | a user is a client user exactly when its stored role is `client` |
| `Models.RolesExclusive` | app/models.py:30-34 | `is_ops_user` and `is_client_user` are never both true |
| `Models.ToDict` | app/models.py:45-52 | the summary has the id, the original filename as `filename`, the type and the owner's email; it has no field for the storage name or the download token |
| `Models.UserById` | app/routes/file_routes.py:18 | `User.query.get`: finds a user with that id, or none exists |
| `Models.UserByEmail` | app/routes/auth_routes.py:19 | finds the first user with that email, or none exists |
| `Models.UserByVerificationToken` | app/routes/auth_routes.py:50 | finds a user holding that verification token, or none holds it |
| `Models.FileById` | app/routes/file_routes.py:98 | `File.query.get`: finds a file with that id, or none exists |
| `Models.FileByToken` | app/routes/file_routes.py:127 | finds the first file carrying that download token, or none carries it |
| `Models.UserByIdNumbered` | app/models.py:11 | with ids numbered by insertion, the lookup by id finds row `id - 1` exactly for ids 1 to the table size |
| `Models.UserByEmailUnique` | app/models.py:12 | under the unique email constraint, the lookup by a user's email finds that user |
| `Models.FileByTokenUnique` | app/models.py:43 | under the unique token constraint, the lookup by a file's token finds that file |
| `Models.AddUserWellFormed` | app/routes/auth_routes.py:24-31 | inserting a user with a new email and an unused token keeps emails and tokens unique and every file's owner present |
| `Models.MarkVerifiedWellFormed` | app/routes/auth_routes.py:55-57 | verifying a user keeps the tables well formed |
| `Models.AddFileWellFormed` | app/routes/file_routes.py:41-54 | registering a file with an unused token and a new storage name keeps tokens and storage names unique, and its bytes stored |
| `Models.Database.AddFile` | app/routes/file_routes.py:43-54 | saving the bytes under the storage name and committing the row appends exactly that row and stores exactly those bytes, users unchanged, invariants kept |
| `Models.Database.constructor` | app/models.py:10-18 | a database starts with well-formed accounts, no files and an empty upload folder |
| `Http.Given` | app/routes/auth_routes.py:15 | a JSON field is falsy exactly when it is absent or the empty string |
| `AuthRoutes.Signup` | app/routes/auth_routes.py:10-45 | 400 iff email or password is missing or empty; 409 iff the email is taken; on either the table is unchanged; otherwise 201 and exactly one client user is appended, existing users unchanged, invariants kept |
| `AuthRoutes.VerifyEmail` | app/routes/auth_routes.py:47-59 | 404 iff no user holds the token, table unchanged; otherwise 200, only that user becomes verified with its token cleared; afterwards nobody holds the token, so a repeat is 404 |
| `AuthRoutes.Login` | app/routes/auth_routes.py:61-88 | 400 iff a field is missing; refusals are 400, 401 or 403; a grant names a user with that email, a matching password and not an unverified client, and returns its stored role |
| `AuthRoutes.LoginUnknownEmail` | app/routes/auth_routes.py:69-72 | an unregistered email gets 401 |
| `AuthRoutes.LoginChecksPasswordFirst` | app/routes/auth_routes.py:71-75 | a wrong password gets 401 whatever the verification state: credentials are checked before verification |
| `AuthRoutes.LoginUnverifiedClientForbidden` | app/routes/auth_routes.py:74-75 | an unverified client with the right password gets 403 |
| `AuthRoutes.LoginOpsNeedsNoVerification` | app/routes/auth_routes.py:74-88 | an operations user with the right password logs in, verified or not |
| `AuthRoutes.LoginVerifiedGranted` | app/routes/auth_routes.py:78-88 | a verified user with the right password is granted its own id, email and stored role |
| `AuthRoutes.SignupNeedsNoVerification` | app/models.py:20-25 | a client just added by signup logs in at once, with no email verification |
| `AuthRoutes.UnverifiedSignupForbidden` | app/models.py:15 | with the column default instead of the override, a new client with the right password gets 403 |
| `AuthRoutes.UnverifiedSignupVerifiedGranted` | app/routes/auth_routes.py:47-88 | with the column default, the issued token names the new client's row alone, and once that row is verified the same login is granted |
| `FileRoutes.Caller` | app/routes/file_routes.py:17-21 | the caller is absent exactly when no user has the token's id |
| `FileRoutes.Upload` | app/routes/file_routes.py:12-60 | 404 iff the caller is unknown; 403 iff not operations; 400 iff no file part, empty name or disallowed extension; 500 iff the sanitised name has lost its dot; on any of these nothing changes; otherwise 201 and exactly one file is appended with the caller as owner, the sanitised name, its extension as type, a storage name of fresh UUID, dot and type, and the fresh token, with its bytes stored under that name |
| `FileRoutes.Summaries` | app/routes/file_routes.py:76-77 | one summary per file in table order, with the original filename, type, id and owner's email |
| `FileRoutes.ListFiles` | app/routes/file_routes.py:63-82 | 404 iff the caller is unknown, 403 iff not a client, otherwise the summaries of all files |
| `FileRoutes.GetDownloadLink` | app/routes/file_routes.py:85-111 | 403 iff the caller is not a client (before any file lookup); 404 iff the caller is unknown or no file has that id; a link iff the caller is a client and a file has that id, and the link carries that file's stored token |
| `FileRoutes.DownloadFile` | app/routes/file_routes.py:114-136 | refusals are 404 or 403; an unknown caller gets 404; 403 iff the caller is not a client, before the token is looked at; a client with an unknown token gets 404; a file is served only to a client, carries the token, and is served by storage name, under its original name, with its stored bytes |
| `FileRoutes.ClientDownloadsByToken` | app/routes/file_routes.py:127-136 | under the unique token constraint, a client presenting a file's token whose bytes are stored is served that file |
| `FileRoutes.OpsCannotDownload` | app/routes/file_routes.py:124-125 | an operations user gets 403 for any token, even one no file carries |
| `FileRoutes.LinkThenDownload` | app/routes/file_routes.py:98-129 | the token in a file's download link downloads that file |
| `FileRoutes.UploadedFileDownloads` | app/routes/file_routes.py:127-136 | a newly registered file downloads to a client as exactly the bytes stored for it |
| `FileRoutes.SummariesOfAppend` | app/routes/file_routes.py:76-77 | one more registered file adds exactly its summary at the end of the listing |

## Where the code and its tests disagree

- `User.__init__` (app/models.py:24) sets `is_verified = True`. This
  overrides the column default `False` (app/models.py:15). The tests expect a
  new signup to be unverified (tests/test_auth.py:39) and an unverified client
  to be refused with 403 (tests/test_auth.py:130-154). The model follows the
  code. `SignupNeedsNoVerification` proves that a new client logs in without
  verifying. The 403 branch is reachable only for rows that start out
  unverified in the seed table. The behaviour the tests expect is modelled
  beside it: `UnverifiedUser` is the row under the column default, and
  `UnverifiedSignupForbidden` and `UnverifiedSignupVerifiedGranted` prove
  that such a client is refused with 403 until `VerifyEmail` with the issued
  token updates its row, and is granted afterwards.
- The upload refusal for non-operations users (app/routes/file_routes.py:24)
  answers under the key `msg` with the text "Only Operations can upload files".
  The test (tests/test_files.py:117) reads `message` and expects "Only
  Operations users can upload files". Both agree on 403, which is all the model
  records.

## Left out

- HTTP plumbing: blueprints, request parsing, JSON bodies, message strings,
  `url_for` (a link is modelled by its token), and JWT creation, signing, expiry
  and the 401 a missing or invalid token gets from `jwt_required`.
- Request fields are `Option<string>`. JSON values of other types (numbers,
  lists) and a non-JSON body are not modelled.
- bcrypt hashing and comparison, `secure_filename` and `uuid4` are foreign.
  They are parameters, and UUID freshness is a precondition.
- `send_verification_email` is not modelled: SMTP is best effort, with its
  failures swallowed, so it changes no state.
- Timestamps (`created_at` and its formatting in `to_dict`) are not modelled.
- Disk I/O is a map from storage name to bytes. Streaming, the 16 MiB request
  limit and write failures are not modelled.
- Concurrency is not modelled. Races on the unique constraints are the
  database's concern, and the model is sequential.
- FileService.Lower: models `str.lower()` on ASCII letters only. No non-ASCII
  character lower-cases to a letter of `pptx`, `docx` or `xlsx`, so the
  verdict of `allowed_file` is the same. The sanitised name that
  `get_file_extension` sees is ASCII after `secure_filename`.
- `File.query.all()` has no `ORDER BY`. The model lists files in insertion
  order, which is SQLite's usual row order.
- Row ids follow SQLite's integer primary key with no deletions: 1, 2, 3, …
  in insertion order.
- Operations accounts have no route. They are part of the table a `Database`
  is created with, as the tests insert them directly.
- app/__init__.py and most of app/config.py are not part of this model. Only
  `ALLOWED_EXTENSIONS` is used.
