# Record store of The Sarkar Advertisement server

This project models the record store behind the HTTP handlers of
`server.js`. The store is one SQLite database with two tables:

- `users`: AUTOINCREMENT id, UNIQUE username, UNIQUE email, bcrypt-hashed password, `isAdmin` flag, creation time.
- `userdata`: AUTOINCREMENT id, owner `userId`, title, optional description, opaque serialised payload, creation and update times.

The handlers register and log in users, save, list, overwrite and delete
records, and give the admin a listing of all non-admin users with their
records, a view of one user, and a cascading user delete. At start-up the
server seeds an admin account with INSERT OR IGNORE.

The model is a class `Server.Database` that holds the two tables as
sequences of rows in rowid order. It also holds the two AUTOINCREMENT
counters (`sqlite_sequence`). Each handler that runs INSERT, UPDATE or
DELETE is a method that changes the tables. Each handler that only runs
SELECT is a function of the tables, or a method that changes nothing.
`Valid()` is the invariant the schema's constraints keep:

- ids grow along each table and never exceed the last id issued;
- usernames are pairwise distinct, and so are emails.

Modules:

- `Seqs`: WHERE-clause filtering and first-row lookup over a table, and the lemmas about them.
- `Crypt`: the password digest as an abstract one-way function. `Hash` takes the salt, and `Verify` is `compareSync`.
- `Schema`: the rows, the projections the handlers return, the error kinds, and the table invariants.
- `Sorting`: `ORDER BY createdAt DESC`.
- `Server`: the database class and its handlers.

The model takes the request fields that the handlers test with `!field`
(username, email, password, title) as strings. An absent field and an empty
one are both `""`, because the handlers reject the two alike. An absent or
zero `userId` is `0`, and owners are integers. Nullable columns
(`description`, `data`) are `Option<string>`. `None` is SQL NULL, which is
what an absent field binds to. The bcrypt salt, the per-user fetch failures
of the admin listing, and `CURRENT_TIMESTAMP` are parameters. Inputs outside
these conventions are listed under "## Left out".

Behaviour of the code worth noting:

- The admin seed uses INSERT OR IGNORE, so a conflict on the email `admin@sarkar.com` makes it a no-op as well as a conflict on the username.
- SQLite draws an AUTOINCREMENT id before it checks the UNIQUE constraints, and an ignored INSERT still completes. So every start-up spends one user id, even when the admin already exists. A plain INSERT that fails on a UNIQUE violation aborts its statement, so a failed registration spends no id.
- A PUT with no title binds NULL to the NOT NULL `title` column. When a row has that id, SQLite refuses the statement and the handler answers 500 "Error updating data". When no row has that id, the handler reports success.
- The admin listing pushes each user's entry when that user's query completes, so the order of entries is not fixed. The model's contract fixes only the entries and their number.
- The view of one user (`GET /api/admin/users/:userId`) does not filter out admin accounts.
- The seed runs before any request, so on a new database file the admin account gets id 1 and the first registered user gets id 2. After each later restart the next registration skips one more id.

## Model

| member | source | states |
|---|---|---|
| `Server.Database.constructor` | server.js:23-46 | creating the tables on a new database file gives two empty tables with no id issued, and `Valid()` holds |
| `Server.Database.SeedAdmin` | server.js:48-57 | INSERT OR IGNORE of `admin`/`admin@sarkar.com` with the digest of `admin123` and `isAdmin` true. When the username or email is already taken, `users` is unchanged; otherwise the admin is appended with the next id. Either way the AUTOINCREMENT counter advances by one. Afterwards the seed's values are taken, so a second run adds no row. The records table is unchanged |
| `Server.StartTwice` | server.js:23-57 | two starts on one database file leave exactly one account: the admin with id 1, flagged admin, whose stored digest verifies `admin123`, and no records. Two ids have been spent, so the next registration gets id 3 |
| `Server.Database.Register` | server.js:63-82 | any empty field gives "All fields required" and no change. A taken username or email gives the single conflict error and no change. Otherwise exactly one row is appended, with id one above every id issued before, `isAdmin` false and password `Hash(password, salt)`, and its id is returned. Afterwards `Login(username, password)` returns exactly that id, username, email and `isAdmin` false. The records table is unchanged |
| `Server.Database.Login` | server.js:85-121 | an empty username or password gives the 400 validation error. Otherwise login succeeds if and only if some account has that username and a digest that verifies the password. Every other outcome is the same `InvalidCredentials` value, for an unknown username and for a wrong password alike. Success returns that account's id, username, email and admin flag, and the result type has no password field. As a function it changes nothing |
| `Server.Database.CreateRecord` | server.js:124-141 | a zero `userId` or empty title gives "UserId and title required" and no change. Otherwise it appends exactly one row with a fresh id above every earlier id and `createdAt == updatedAt == now`, and returns the id. The owner is not checked to exist, other rows are unchanged, and users are unchanged |
| `Server.Database.ListByOwner` | server.js:144-157 | the result holds exactly the rows whose `userId` is the given owner, each with its multiplicity, ordered by `createdAt` non-increasing. No rows gives an empty list, not an error |
| `Server.Database.UpdateRecord` | server.js:160-174 | every row with that id gets the new title, description, payload and `updatedAt := now`, and keeps its id, owner and `createdAt`. All other rows and all users are unchanged. Success is reported even when no row has the id. An absent title fails with "Error updating data" exactly when a row has the id, and then nothing changes |
| `Server.Database.DeleteRecord` | server.js:177-190 | exactly the row with that id is removed; the other rows keep their order, and users and counters are unchanged |
| `Server.SaveThenEdit` | server.js:124-174 | saving a record for an owner with no records and then overwriting it leaves that owner's listing equal to the one-row list of the overwritten row, with the new title and payload, the original `createdAt` and `updatedAt` set to the later time. Its `updatedAt` is later than its `createdAt` exactly when the edit happened after the save |
| `Server.Database.AdminListUsers` | server.js:193-228 | the listing has one entry per non-admin account. Every non-admin account appears, paired with exactly its own rows (without `userId`), or with no rows when its fetch failed. Every entry belongs to some non-admin account, so no admin account appears. Nothing changes |
| `Server.ListingMatchesNonAdmins` | server.js:202-224 | a listing in table order, with one entry per selected non-admin account, contains the entry of every non-admin account, and each of its entries belongs to some non-admin account |
| `Server.CompletionOrderListing` | server.js:202-224 | entries are pushed as their queries complete, so the listing sent is a reordering of the table-order listing. Any such reordering has one entry per non-admin account, contains the entry of every non-admin account, and contains no other entry |
| `Server.Database.AdminGetUser` | server.js:231-254 | "User not found" exactly when no account has the id. Otherwise the result is that account's id, username, email and creation time, with its rows as `ListByOwner` gives them |
| `Server.Database.AdminDeleteUser` | server.js:257-272 | the owner's rows are removed first, then the account. Afterwards no row has that owner and no account has that id, while every other row and account remains in its order. `ListByOwner` is empty, `AdminGetUser` reports not found, and the counters are unchanged, so the id is never reused |
| `Schema.Status` | server.js:67-239 | the HTTP status of each failure: 400 exactly for missing fields and for the registration conflict, 401 exactly for invalid credentials, 404 exactly for a missing user, and 500 exactly for a storage failure. Every failure but a storage failure is a 4xx |
| `Crypt.Hash` | server.js:49 | the digest records the cost factor 10 and its salt, and the password it was made from verifies against it |
| `Schema.UsernameNamesOneRow` | server.js:27 | in a valid `users` table no two rows share a username, so the login lookup finds at most one row |
| `Schema.AppendUserValid` | server.js:26-28 | appending a row with the next AUTOINCREMENT id and an untaken username and email keeps the table valid |
| `Schema.AppendRecordValid` | server.js:37 | appending a row with the next AUTOINCREMENT id keeps `userdata` valid |
| `Schema.WithoutUserValid` | server.js:265 | deleting users by id keeps `users` valid |
| `Schema.FilterRecordsValid` | server.js:180-182 | deleting any set of rows keeps `userdata` valid |
| `Sorting.NewestFirstOrder` | server.js:148 | `ORDER BY createdAt DESC`: the result is a permutation of the input, and every row is at least as recent as every row after it |
| `Sorting.Insert` | server.js:148 | inserting into a newest-first sequence keeps it newest first and adds exactly that row |
| `Seqs.Filter` | server.js:147-148 | a WHERE clause keeps exactly the rows that satisfy it, and never more rows than the table has |
| `Seqs.FilterMultiplicity` | server.js:147-148 | a WHERE clause keeps every matching row as often as it occurs in the table, and no other row |
| `Schema.OwnedByMultiplicity` | server.js:147 | `WHERE userId = ?` selects each of the owner's rows as often as it occurs, and no row of another owner |
| `Seqs.FirstIndex` | server.js:92-94 | `db.get` returns the first row that matches, and no row exactly when none matches |
| `Seqs.FilterPairwise` | server.js:260-265 | a DELETE keeps every pairwise property of the remaining rows, such as increasing ids and distinct usernames |

## Left out

- HTTP routing, status plumbing, body parsing, CORS, static files, `app.listen` and logging. These are transport and I/O. The status of each error kind is `Schema.Status`; the response messages are the constants in `Server`.
- bcrypt internals. `Crypt.Derive` is a stand-in tag function. The model relies only on the digest being a separate type from the password and on `Verify(Hash(p, s), p)`.
- Storage failures: a failed connection, or a statement error other than a constraint violation (500 "Database error", "Error saving data", "Error fetching …", "Error deleting …"). The admin listing's swallowed per-user failure is modelled by the `fetchFails` parameter.
- `Server.Database.Register`: a statement error other than a UNIQUE violation would also be reported as the conflict; only UNIQUE violations are modelled.
- `Server.Database.Login`: an error in the second (password) query would also be reported as invalid credentials; storage errors are not modelled.
- `Server.Database.Register`: a `password` that is not a string makes `hashSync` throw, and Express answers 500. A username or email that is not a string, such as a number, passes the check and is stored as its text form. All three fields are strings here.
- `Server.Database.Register`: an INSERT that fails on a UNIQUE violation is modelled as spending no id. SQLite promises only that the ids of failed inserts might not be reused, so a gap there is not excluded by the engine.
- `Server.Database.Login`: a password that is not a string, such as a number, makes `compareSync` throw inside the query callback. Nothing catches it there, so the process stops instead of answering, while an unknown username still gets 401. The password is a string here, and both failures are the one `InvalidCredentials`.
- `Server.Database.CreateRecord`: a title that is truthy but not a string, such as a number, passes the check and is stored as text. The title is a string here.
- `Server.Database.CreateRecord`: a textual `userId` such as `"0"` is truthy, so the handler accepts it and SQLite stores a row owned by 0. Here an owner of 0 is always rejected.
- `Server.Database.AdminGetUser`: an error in the user query is also reported as 404 "User not found", and an error in the records query gives 500. Storage errors are not modelled.
- `JSON.stringify` of the payload. The payload is passed already serialised, and an absent payload is NULL (`None`).
- Non-numeric `userId` values, which SQLite would store as text in the INTEGER column. Owners are integers here.
- The 64-bit limit of SQLite row ids (SQLITE_FULL once AUTOINCREMENT passes 2^63-1). Ids are unbounded integers.
- Foreign-key enforcement. SQLite does not enforce it by default, so records whose owner does not exist are allowed.
- The order of rows with equal `createdAt` in `ListByOwner`, and the order of rows in each admin listing entry, which has no ORDER BY. The model keeps table order; SQL leaves both open.
- `Server.Database.AdminListUsers`: the source returns entries in query completion order. The model collects them in table order, and its contract states only the entries and their number. `Server.CompletionOrderListing` shows that every reordering keeps these properties.
- Concurrency between handlers, and between the two statements of the cascade delete. Each handler runs as one atomic step.
