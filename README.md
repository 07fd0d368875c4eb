# Login service account table, modelled in Dafny

The login service keeps one table, `users`. Each row holds an integer
primary key `id` and three non-null strings: `name`, `email` and
`password`. `email` and `password` are each declared unique. Six HTTP
handlers work on the table:

- view one account by id
- list all accounts in id order
- sign up
- sign in
- delete
- partial update (PATCH)

Before a handler runs, the request body is validated against a payload
schema. A name has 2 to 25 characters. A password has 5 to 50 characters
and contains a lowercase letter somewhere. An email must pass an external
email validator, and the payload then carries the address as the validator
normalized it (whitespace stripped, a `Name <addr>` form reduced to `addr`,
the domain lower-cased), not as it was sent.

The model has three modules, one per source file, plus the test suite's
scenarios:

- `models.dfy` (`Models`): the stored `Account` record. It also has the
  ORM's `Row`, whose attributes may be assigned null before commit, and
  `TableInvariant` (unique emails, unique passwords). `Commit` is the
  database's integrity check: it fails exactly when a NOT NULL column would
  hold null or a unique value would repeat.
- `schemas.dfy` (`Schemas`): JSON bodies, the field rules and the parsing
  of each payload (None stands for the 422 rejection). It also has the
  encodings of payloads as bodies, with round-trip lemmas, and
  `model_dump(exclude_unset=True)` as `ModelDump`.
- `login.dfy` (`Login`): the class `AccountTable`. It owns the table as a
  field `rows: map<int, Account>` and has one method or function per
  handler. Each handler returns a `Response` (200, 201, 204, 404, 409 or
  400). `Valid()` is the table invariant. It also requires ids to be
  positive and every stored record to pass the response shape. The partial
  update is also given as a function of the table, `PatchOutcome`, and the
  lemmas about what a PATCH may change are proved of that function.
- `scenarios.dfy` (`Scenarios`): the request sequences of
  `login_tests/test_login.py`, replayed against the handlers' contracts
  alone. `DuplicateSignUp`, `SignIns`, `Views`, `Patches`, `Deletes`,
  `ConstraintQuirks` and `NormalizedEmails` have no postcondition, so they
  have no row below. Every status and body they assert follows from the
  contracts. `NormalizedEmails` shows that a sign-up spelling a stored email
  with an upper-case domain is a 409, and that signing in with that spelling
  succeeds.

The email validator is the parameter `normEmail: string -> Option<string>`:
the normalized address, or None for a refusal. The table holds it as a
constant. A payload's email is in normal form (`NormalEmail`: the validator
gives it back unchanged). A parsed payload is in normal form when the
validator is `Idempotent`, that is, when it gives back any address it
returned. The store's queries are written as scans over the
key set: `ORDER BY id` (`Least`, `ListAccounts`), `WHERE email = ...`
(`FindByEmail`) and SQLite's choice of a new row id (`NextId`: one more
than the largest id, 1 on an empty table).

Three behaviours of the code are modelled as written:

- `password` is unique, so signing up with a new email and a stored password
  is a 409.
- A PATCH that breaks a constraint is rolled back and still answers 200. The
  body is the stored record, because the rollback expires the object and it
  is read back from the table.
- A PATCH assigns every key that was sent, including an explicit null. A null
  in a NOT NULL column is an integrity error and is rolled back.

## Model

| member | source | states |
|---|---|---|
| Models.SetAttr | login_service/login.py:83 | assigning one column of the mapped object sets that column to the given value (null included) and leaves the other two as they were |
| Models.Commit | login_service/models.py:12-15 | a commit succeeds iff no NOT NULL column holds null and no other record holds the email or the password; on success the record is stored under its id, no other record changes, and the uniqueness invariant is preserved |
| Models.UniqueEmails | login_service/models.py:14 | no two records hold the same email |
| Models.UniquePasswords | login_service/models.py:15 | no two records hold the same password |
| Models.TableInvariant | login_service/models.py:12-15 | a stored table meets both uniqueness constraints; NOT NULL and the primary key hold by construction of `Account` and of the map |
| Schemas.NameOk | login_service/schemas.py:7 | a name has 2 to 25 characters |
| Schemas.PasswordOk | login_service/schemas.py:8 | a password has 5 to 50 characters and the unanchored search for `[a-z]` finds a match |
| Schemas.CreateOk | login_service/schemas.py:18-21 | a sign-up payload has a valid name, an email in normal form and a valid password |
| Schemas.LoginOk | login_service/schemas.py:23-25 | a sign-in payload has an email in normal form and a valid password |
| Schemas.PartialOk | login_service/schemas.py:27-31 | each field a partial-update payload supplies is one its validator keeps as it is; null and absent fields pass |
| Schemas.ReadOk | login_service/schemas.py:33-38 | a response record has an integer id, a valid name, an email in normal form and a valid password |
| Schemas.SearchLower | login_service/schemas.py:8 | the unanchored search for `[a-z]` finds the first lowercase letter when there is one, and returns none exactly when no character is a lowercase letter |
| Schemas.PasswordRule | login_service/schemas.py:8 | a password is valid iff its length is 5 to 50 and some character anywhere in it is in a-z |
| Schemas.CreatedIsReadable | login_service/schemas.py:18-38 | a record built from a valid sign-up payload meets the response shape's rules, whatever its id |
| Schemas.TextField | login_service/schemas.py:19-21 | a required `str` field is read iff the key is present and holds a JSON string |
| Schemas.ParseCreate | login_service/schemas.py:18-21 | a sign-up body is accepted iff name, email and password are all present as strings, the name and password meet their rules and the validator accepts the email; the payload then carries the name and password as sent and the email as normalized, and meets the payload rules when normalization is idempotent |
| Schemas.ParseLogin | login_service/schemas.py:23-25 | a sign-in body is accepted iff email and password are present strings, the validator accepts the email and the password meets the password rule, so an ill-formed password is refused before any lookup; the payload carries the normalized email and the password as sent |
| Schemas.ParseOptional | login_service/schemas.py:29-31 | an optional field is Unset iff absent, SetNull iff sent as null, and refused iff sent as a non-string or as a string its validator refuses; a sent string becomes the value the validator returns for it (the normalized address for the email) |
| Schemas.ParsePartial | login_service/schemas.py:27-31 | a partial-update body is refused iff some key is present with a value that is neither null nor a string, or with a string its rule or the email validator refuses; on acceptance each field is Unset iff its key is absent, SetNull iff it was sent as null, and otherwise carries the value its validator returns for the string sent (the name and password as sent, the email normalized); the empty body gives the all-unset payload |
| Schemas.CreateRoundTrip | login_service/schemas.py:18-21 | validating the body of a sign-up payload accepts it iff its name and password meet their rules and the validator accepts its email, and then gives it back with the email normalized; so it comes back unchanged iff it meets the rules with its email already in normal form |
| Schemas.PartialRoundTrip | login_service/schemas.py:27-31 | validating the body of a partial-update payload rejects it iff some supplied value is refused by its validator, and gives it back unchanged, absent, null and supplied fields alike, iff every supplied value is one its validator keeps as it is |
| Schemas.ModelDump | login_service/login.py:81 | the dump lists each sent field exactly once with the value sent (null included) and no unsent field |
| Login.ApplyAll | login_service/login.py:82-83 | assigns each dumped (column, value) pair to the mapped object in order, as the `setattr` loop does |
| Login.SetattrLoopMerges | login_service/login.py:81-83 | assigning the dumped fields one by one gives each sent field the value sent and keeps every unsent field |
| Login.PatchOutcome | login_service/login.py:85-91 | the table after a PATCH of a present id: the committed table when the merged record passes the constraints, the table as it was when the commit raises and is rolled back |
| Login.PatchOnlySuppliedFields | login_service/login.py:81-91 | a partial update keeps the set of ids, does not touch other records, keeps unsent fields, gives a changed field only the value sent, and preserves the uniqueness invariant |
| Login.PatchRollsBackOnViolation | login_service/login.py:85-91 | an explicit null, or a sent email or password held by another record, leaves the table exactly as it was |
| Login.PatchAppliesWhenAllowed | login_service/login.py:82-88 | on a valid table, an update without nulls whose sent email and password no other record holds is committed with exactly the sent values replacing the stored ones |
| Login.EmptyPatchIsIdentity | login_service/login.py:81-88 | on a valid table, an empty update body leaves the table unchanged |
| Login.Least | login_service/login.py:34 | returns a member of a non-empty id set that is no larger than any other member |
| Login.ListingCount | login_service/login.py:34-37 | a listing strictly ascending by id whose ids are the table's keys has exactly one entry per stored record |
| Login.AccountTable.Valid | login_service/models.py:12-15 | the class invariant: the uniqueness constraints, positive ids as SQLite assigns them, and every stored record passing the response shape |
| Login.AccountTable.constructor | login_service/login.py:14 | a new table is empty and meets the invariant |
| Login.AccountTable.GetAccountById | login_service/login.py:23-29 | 200 with the stored record iff the id is present, 404 iff it is absent; the returned record meets the response shape |
| Login.AccountTable.ListAccounts | login_service/login.py:32-37 | returns records strictly ascending by id, each equal to the stored one, whose ids are exactly the table's ids; an empty table gives an empty list |
| Login.AccountTable.NextId | login_service/models.py:12 | the id given to an inserted row is not in use and is larger than every stored id: 1 on an empty table, otherwise one more than the largest stored id |
| Login.AccountTable.SignUp | login_service/login.py:39-50 | 409 iff some stored record has the payload's email or password, with the table unchanged; otherwise 201 with a fresh positive id (1 on an empty table), exactly one record added with the payload's fields, the rest unchanged, and the invariant kept |
| Login.AccountTable.FindByEmail | login_service/login.py:56-57 | finds a record holding the email when there is one, and reports none iff no record holds it |
| Login.AccountTable.SignIn | login_service/login.py:52-62 | 404 iff no record has the email; success iff a record has both the email and the password; 400 iff a record has the email but another password; the table is not changed |
| Login.AccountTable.Delete | login_service/login.py:64-72 | 204 iff the id is present, else 404; the table afterwards is the old one without that id, so a second delete of the same id is 404 |
| Login.AccountTable.PartialEdit | login_service/login.py:74-91 | 404 iff the id is absent, with the table unchanged; otherwise the table becomes the committed or rolled-back outcome of assigning the sent fields, the answer is 200 with the record now stored, and the invariant is kept |
| Scenarios.TableWithJohn | login_tests/test_login.py:7-15 | the first sign-up of John on an empty table answers 201 with id 1 and the fields sent, and leaves a valid table holding only John under id 1 |

## Left out

- HTTP routing, `Response` objects and dependency injection (`get_db`,
  session open and close) are not modelled. Handlers return a `Response`
  value, and its `Status()` is the HTTP code.
- The 422 path is modelled by the `Parse*` functions. The handler methods
  take payloads that have already been validated, as FastAPI passes them.
- Email validation and normalization are an external library. The model
  takes them as the parameter `normEmail` and assumes nothing of it. Where a
  parsed payload must be in normal form, `Idempotent(normEmail)` is a
  hypothesis of the statement, not a proved fact.
- The SQLAlchemy engine, session, flush, refresh and rollback are not
  modelled. They are abstracted as the map `rows`, the `Commit` check, and
  keeping the old map on rollback. The deployed database is configured in a
  `database` module that is not part of this model. Id allocation follows
  SQLite's rowid rule, which the tests' database uses.
- `String(100)` on the name column is not modelled. SQLite does not enforce
  it, and the name rule allows at most 25 characters anyway.
- JSON values other than strings and null are collapsed into one `JOther`
  case. A `str` field refuses them.
- Notification publishing is not modelled: `login_service/login.py` has no
  such step. The test fixture patches a `get_exchange` that the module does
  not define. So no handler here publishes anything, and a PATCH that breaks
  a constraint answers 200, not 409.
- The `Account` schema with `user_id` (`login_service/schemas.py:10-15`) is
  used nowhere and is not modelled.
- `login_tests/test_login.py:37-40` expects 204 when deleting id 1 from a
  table the fixture has emptied. The code answers 404. The model follows the
  code, and `Scenarios.Deletes` shows the 404.
- Login.AccountTable.SignIn: requires the table invariant. With duplicate
  emails, `scalar_one_or_none` would raise, and the unique email column rules
  that out.
- Login.AccountTable.GetAccountById, Login.AccountTable.Delete,
  Login.AccountTable.PartialEdit, Login.AccountTable.NextId: ids are
  unbounded integers here, while SQLite stores signed 64-bit integers. A
  path id outside that range makes the database driver raise, so the
  handler fails instead of answering 404 as the model does. Once the largest
  stored id is 2^63-1, SQLite picks a random unused id instead of one more
  than the largest, which `NextId` does not model.
- Concurrent requests and transaction isolation are not modelled. Each
  handler runs as one atomic step on the table.
- The banking and order services are separate services and are not
  modelled.
