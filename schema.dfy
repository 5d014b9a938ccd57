/**
 * The two tables the server creates at start-up (`users` and `userdata`),
 * the projections of their rows that the handlers send back, the failures
 * the handlers report, and the invariants the tables' constraints keep.
 */
module Schema {
  import opened Seqs
  import opened Crypt

  /** A `CURRENT_TIMESTAMP` value; the clock is a parameter of every operation that reads it. */
  type Time = int

  /** A row of `users`. The password column holds a digest, never the plaintext. */
  datatype User = User(id: int, username: string, email: string, password: Digest, isAdmin: bool, createdAt: Time)

  /**
   * A row of `userdata`. `description` and `data` are nullable columns; `data`
   * is the already serialised payload, opaque to the store.
   */
  datatype Record = Record(
    id: int,
    userId: int,
    title: string,
    description: Option<string>,
    data: Option<string>,
    createdAt: Time,
    updatedAt: Time)

  /** What a successful login returns: `id, username, email, isAdmin`. */
  datatype PublicUser = PublicUser(id: int, username: string, email: string, isAdmin: bool)

  /** What the admin views select from `users`: `id, username, email, createdAt`. */
  datatype UserSummary = UserSummary(id: int, username: string, email: string, createdAt: Time)

  /** What the admin listing selects from `userdata`: every column except `userId`. */
  datatype RecordSummary = RecordSummary(
    id: int,
    title: string,
    description: Option<string>,
    data: Option<string>,
    createdAt: Time,
    updatedAt: Time)

  /** One user of the admin view with one user, with its full rows newest first. */
  datatype UserWithRecords = UserWithRecords(user: UserSummary, data: seq<Record>)

  /** One entry of the admin listing of all users. */
  datatype UserWithSummaries = UserWithSummaries(user: UserSummary, data: seq<RecordSummary>)

  /** The failures the handlers report, each with the message it is sent with; `Status` gives its HTTP status. */
  datatype Error =
    | MissingFields(message: string)
    | Conflict                          // "Username or email already exists"
    | InvalidCredentials                // "Invalid credentials"
    | UserNotFound                      // "User not found"
    | StorageFailure(message: string)

  /**
   * The HTTP status each failure is sent with: every failure the client
   * caused is a 4xx, and only a storage failure is a 500. A 401 means bad
   * credentials and a 404 a missing user, and nothing else.
   */
  function Status(e: Error): (code: int)
    ensures 400 <= code < 500 <==> !e.StorageFailure?
    ensures code == 400 <==> e.MissingFields? || e.Conflict?
    ensures code == 500 <==> e.StorageFailure?
    ensures code == 401 <==> e.InvalidCredentials?
    ensures code == 404 <==> e.UserNotFound?
  {
    match e
    case MissingFields(_) => 400
    case Conflict => 400
    case InvalidCredentials => 401
    case UserNotFound => 404
    case StorageFailure(_) => 500
  }

  datatype Result<T> = Ok(value: T) | Err(error: Error)

  function Public(u: User): PublicUser {
    PublicUser(u.id, u.username, u.email, u.isAdmin)
  }

  function Summary(u: User): UserSummary {
    UserSummary(u.id, u.username, u.email, u.createdAt)
  }

  function Summaries(rs: seq<Record>): seq<RecordSummary> {
    seq(|rs|, k requires 0 <= k < |rs| => RecordSummary(rs[k].id, rs[k].title, rs[k].description, rs[k].data, rs[k].createdAt, rs[k].updatedAt))
  }

  /** The admin listing's entry for `u`: its summary and its rows, or no rows when their query failed. */
  function AdminEntry(records: seq<Record>, u: User, fetchFails: set<int>): UserWithSummaries {
    UserWithSummaries(Summary(u), if u.id in fetchFails then [] else Summaries(OwnedBy(records, u.id)))
  }

  // ---- the WHERE clauses the handlers use ----

  function OwnedBy(records: seq<Record>, userId: int): seq<Record> {
    Filter(records, (x: Record) => x.userId == userId)
  }

  /** The owner's rows keep their multiplicities; no other row is selected. */
  lemma OwnedByMultiplicity(records: seq<Record>, userId: int, x: Record)
    ensures multiset(OwnedBy(records, userId))[x] == if x.userId == userId then multiset(records)[x] else 0
  {
    FilterMultiplicity(records, (r: Record) => r.userId == userId, x);
  }

  function NotOwnedBy(records: seq<Record>, userId: int): seq<Record> {
    Filter(records, (x: Record) => x.userId != userId)
  }

  function WithoutRecord(records: seq<Record>, id: int): seq<Record> {
    Filter(records, (x: Record) => x.id != id)
  }

  function WithoutUser(users: seq<User>, id: int): seq<User> {
    Filter(users, (u: User) => u.id != id)
  }

  function NonAdmins(users: seq<User>): seq<User> {
    Filter(users, (u: User) => !u.isAdmin)
  }

  /** An INSERT of this username and email would violate a UNIQUE constraint. */
  predicate Taken(users: seq<User>, username: string, email: string) {
    exists u | u in users :: u.username == username || u.email == email
  }

  // ---- table invariants ----

  /** Ids grow along the table (AUTOINCREMENT appends) and the UNIQUE columns differ. */
  predicate UserBefore(a: User, b: User) {
    a.id < b.id && a.username != b.username && a.email != b.email
  }

  predicate RecordBefore(a: Record, b: Record) {
    a.id < b.id
  }

  /** `users` as its constraints keep it, with `lastId` the largest id AUTOINCREMENT has issued. */
  ghost predicate UsersValid(users: seq<User>, lastId: int) {
    && 0 <= lastId
    && Pairwise(users, UserBefore)
    && forall u :: u in users ==> 0 < u.id <= lastId
  }

  ghost predicate RecordsValid(records: seq<Record>, lastId: int) {
    && 0 <= lastId
    && Pairwise(records, RecordBefore)
    && forall x :: x in records ==> 0 < x.id <= lastId
  }

  /** In a valid `users` table no other row carries the username of row `i`. */
  lemma UsernameNamesOneRow(users: seq<User>, lastId: int, i: nat)
    requires UsersValid(users, lastId) && i < |users|
    ensures forall u :: u in users && u.username == users[i].username ==> u == users[i]
  {
  }

  /** Deleting users keeps the table valid. */
  lemma WithoutUserValid(users: seq<User>, lastId: int, id: int)
    requires UsersValid(users, lastId)
    ensures UsersValid(WithoutUser(users, id), lastId)
  {
    FilterPairwise(users, (u: User) => u.id != id, UserBefore);
  }

  /** Deleting records keeps the table valid. */
  lemma FilterRecordsValid(records: seq<Record>, lastId: int, p: Record -> bool)
    requires RecordsValid(records, lastId)
    ensures RecordsValid(Filter(records, p), lastId)
  {
    FilterPairwise(records, p, RecordBefore);
  }

  /** A row appended with the next AUTOINCREMENT id keeps `users` valid when it takes no UNIQUE value. */
  lemma AppendUserValid(users: seq<User>, lastId: int, u: User)
    requires UsersValid(users, lastId)
    requires u.id == lastId + 1 && !Taken(users, u.username, u.email)
    ensures UsersValid(users + [u], lastId + 1)
  {
  }

  lemma AppendRecordValid(records: seq<Record>, lastId: int, x: Record)
    requires RecordsValid(records, lastId)
    requires x.id == lastId + 1
    ensures RecordsValid(records + [x], lastId + 1)
  {
  }
}
