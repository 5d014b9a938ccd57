/**
 * The record store behind the HTTP handlers of server.js: one SQLite
 * database with a `users` table and a `userdata` table, each with an
 * AUTOINCREMENT id. Every handler becomes a member of `Database`; a handler
 * that runs INSERT, UPDATE or DELETE is a method that changes the tables, a
 * handler that only runs SELECT is a function of the tables or a method that
 * changes nothing.
 *
 * Request fields the handlers test with `!field` are passed as strings in
 * which an absent field and an empty one are both "" (and an absent or zero
 * `userId` is 0): the handlers reject the two alike. Nullable columns are
 * `Option`s. The bcrypt salt and `CURRENT_TIMESTAMP` are parameters.
 */
module Server {
  import opened Seqs
  import opened Crypt
  import opened Schema
  import opened Sorting

  /** The account the start-up code inserts with INSERT OR IGNORE. */
  const AdminUsername := "admin"
  const AdminEmail := "admin@sarkar.com"
  const AdminPassword := "admin123"

  const RegisterFieldsMessage := "All fields required"
  const LoginFieldsMessage := "Username and password required"
  const CreateFieldsMessage := "UserId and title required"
  /** Sent when the UPDATE statement fails; here, a NULL title hitting the NOT NULL constraint. */
  const UpdateFailedMessage := "Error updating data"

  class Database {
    /** The rows of `users` and `userdata`, in rowid order. */
    var users: seq<User>
    var records: seq<Record>
    /** The largest id AUTOINCREMENT has issued in each table (SQLite's `sqlite_sequence`). */
    var lastUserId: int
    var lastRecordId: int

    /** What the tables' PRIMARY KEY AUTOINCREMENT and UNIQUE constraints keep true. */
    ghost predicate Valid()
      reads this
    {
      UsersValid(users, lastUserId) && RecordsValid(records, lastRecordId)
    }

    /** `CREATE TABLE IF NOT EXISTS` on a new database file: both tables empty, no id issued. */
    constructor ()
      ensures Valid()
      ensures users == [] && records == []
      ensures lastUserId == 0 && lastRecordId == 0
    {
      users, records := [], [];
      lastUserId, lastRecordId := 0, 0;
    }

    /**
     * The start-up seed: INSERT OR IGNORE of the admin account. Any UNIQUE
     * conflict, on the username or on the email, leaves `users` as it was, so
     * running it again adds no second admin. The ignored INSERT still spends
     * one AUTOINCREMENT id.
     */
    method SeedAdmin(salt: nat, now: Time)
      requires Valid()
      modifies this
      ensures Valid()
      ensures records == old(records) && lastRecordId == old(lastRecordId)
      ensures lastUserId == old(lastUserId) + 1
      ensures old(Taken(users, AdminUsername, AdminEmail)) ==> users == old(users)
      ensures !old(Taken(users, AdminUsername, AdminEmail)) ==>
        users == old(users) + [User(lastUserId, AdminUsername, AdminEmail, Hash(AdminPassword, salt), true, now)]
      ensures Taken(users, AdminUsername, AdminEmail)
    {
      // The row id is drawn from the AUTOINCREMENT counter before the UNIQUE
      // check, and the ignored statement still completes, so the id is spent.
      var admin := User(lastUserId + 1, AdminUsername, AdminEmail, Hash(AdminPassword, salt), true, now);
      if !Taken(users, AdminUsername, AdminEmail) {
        AppendUserValid(users, lastUserId, admin);
        users := users + [admin];
        assert admin in users;
      }
      lastUserId := lastUserId + 1;
    }

    /**
     * `POST /api/register`: validate, hash the password, INSERT. A UNIQUE
     * violation on either column gives one conflict error that does not say
     * which column collided. The stored password is the digest, and the new
     * account can log in at once.
     */
    method Register(username: string, email: string, password: string, salt: nat, now: Time) returns (r: Result<int>)
      requires Valid()
      modifies this
      ensures Valid()
      ensures records == old(records) && lastRecordId == old(lastRecordId)
      ensures username == "" || email == "" || password == "" ==> r == Err(MissingFields(RegisterFieldsMessage))
      ensures username != "" && email != "" && password != "" && old(Taken(users, username, email)) ==>
        r == Err(Conflict)
      ensures r.Ok? <==> username != "" && email != "" && password != "" && !old(Taken(users, username, email))
      ensures r.Err? ==> users == old(users) && lastUserId == old(lastUserId)
      ensures r.Ok? ==> r.value == lastUserId == old(lastUserId) + 1
      ensures r.Ok? ==> forall u :: u in old(users) ==> u.id < r.value
      ensures r.Ok? ==> users == old(users) + [User(r.value, username, email, Hash(password, salt), false, now)]
      ensures r.Ok? ==> Login(username, password) == Ok(PublicUser(r.value, username, email, false))
    {
      if username == "" || email == "" || password == "" {
        return Err(MissingFields(RegisterFieldsMessage));
      }
      var digest := Hash(password, salt);
      if Taken(users, username, email) {
        return Err(Conflict);
      }
      var account := User(lastUserId + 1, username, email, digest, false, now);
      AppendUserValid(users, lastUserId, account);
      users := users + [account];
      lastUserId := lastUserId + 1;
      r := Ok(lastUserId);
      UsernameNamesOneRow(users, lastUserId, |users| - 1);
      assert users[|users| - 1] == account;
    }

    /**
     * `POST /api/login`: look the account up by username and check the
     * password against its digest. An unknown username and a wrong password
     * give the same failure; success returns id, username, email and the
     * admin flag, never the digest.
     */
    function Login(username: string, password: string): (r: Result<PublicUser>)
      reads this
      requires Valid()
      ensures username == "" || password == "" ==> r == Err(MissingFields(LoginFieldsMessage))
      ensures username != "" && password != "" ==>
        (r.Ok? <==> exists u :: u in users && u.username == username && Verify(u.password, password))
      ensures username != "" && password != "" && r.Err? ==> r.error == InvalidCredentials
      ensures r.Ok? ==> exists u :: u in users && u.username == username && r.value == Public(u)
    {
      if username == "" || password == "" then Err(MissingFields(LoginFieldsMessage))
      else
        match FirstIndex(users, (u: User) => u.username == username)
        case None => Err(InvalidCredentials)
        case Some(i) =>
          UsernameNamesOneRow(users, lastUserId, i);
          if Verify(users[i].password, password) then Ok(Public(users[i]))
          else Err(InvalidCredentials)
    }

    /**
     * `POST /api/userdata`: validate, INSERT one row with a fresh id and both
     * timestamps set to now. Whether the owner exists is not checked.
     */
    method CreateRecord(userId: int, title: string, description: Option<string>, data: Option<string>, now: Time)
      returns (r: Result<int>)
      requires Valid()
      modifies this
      ensures Valid()
      ensures users == old(users) && lastUserId == old(lastUserId)
      ensures r.Ok? <==> userId != 0 && title != ""
      ensures r.Err? ==> r.error == MissingFields(CreateFieldsMessage)
      ensures r.Err? ==> records == old(records) && lastRecordId == old(lastRecordId)
      ensures r.Ok? ==> r.value == lastRecordId == old(lastRecordId) + 1
      ensures r.Ok? ==> forall x :: x in old(records) ==> x.id < r.value
      ensures r.Ok? ==> records == old(records) + [Record(r.value, userId, title, description, data, now, now)]
    {
      if userId == 0 || title == "" {
        return Err(MissingFields(CreateFieldsMessage));
      }
      var row := Record(lastRecordId + 1, userId, title, description, data, now, now);
      AppendRecordValid(records, lastRecordId, row);
      records := records + [row];
      lastRecordId := lastRecordId + 1;
      r := Ok(lastRecordId);
    }

    /**
     * `GET /api/userdata/:userId`: exactly the rows owned by `userId`, most
     * recent first; no rows is an empty list, not an error.
     */
    function ListByOwner(userId: int): (r: seq<Record>)
      reads this
      ensures forall x :: x in r <==> x in records && x.userId == userId
      ensures multiset(r) == multiset(OwnedBy(records, userId))
      ensures NewestFirst(r)
    {
      var owned := OwnedBy(records, userId);
      var r := NewestFirstOrder(owned);
      SameElements(r, owned);
      r
    }

    /**
     * `PUT /api/userdata/:id`: overwrite title, description and payload of
     * the row with that id and refresh its `updatedAt`. It reports success
     * when no row has the id. An absent title binds NULL, which the NOT NULL
     * column refuses only when a row matches.
     */
    method UpdateRecord(id: int, title: Option<string>, description: Option<string>, data: Option<string>, now: Time)
      returns (r: Result<()>)
      requires Valid()
      modifies this
      ensures Valid()
      ensures users == old(users) && lastUserId == old(lastUserId) && lastRecordId == old(lastRecordId)
      ensures r.Err? <==> title.None? && exists x :: x in old(records) && x.id == id
      ensures r.Err? ==> r.error == StorageFailure(UpdateFailedMessage)
      ensures title.None? ==> records == old(records)
      ensures title.Some? ==> |records| == |old(records)|
      ensures title.Some? ==> forall k :: 0 <= k < |records| ==>
        records[k] == if old(records)[k].id == id
          then old(records)[k].(title := title.value, description := description, data := data, updatedAt := now)
          else old(records)[k]
    {
      if title.None? {
        if exists x :: x in records && x.id == id {
          r := Err(StorageFailure(UpdateFailedMessage));
        } else {
          r := Ok(());
        }
        return;
      }
      var rows := records;
      records := seq(|rows|, k requires 0 <= k < |rows| =>
        if rows[k].id == id
        then rows[k].(title := title.value, description := description, data := data, updatedAt := now)
        else rows[k]);
      assert forall k :: 0 <= k < |records| ==> records[k].id == rows[k].id;
      r := Ok(());
    }

    /** `DELETE /api/userdata/:id`: remove the row with that id, if any; nothing else changes. */
    method DeleteRecord(id: int)
      requires Valid()
      modifies this
      ensures Valid()
      ensures users == old(users) && lastUserId == old(lastUserId) && lastRecordId == old(lastRecordId)
      ensures records == WithoutRecord(old(records), id)
      ensures forall x :: x in records <==> x in old(records) && x.id != id
    {
      FilterRecordsValid(records, lastRecordId, (x: Record) => x.id != id);
      records := WithoutRecord(records, id);
    }

    /**
     * `GET /api/admin/users`: select every non-admin account, then fetch the
     * rows of each one; a per-user fetch that fails (its id is in
     * `fetchFails`) is reported as no rows. The listing holds each non-admin
     * account exactly once, paired with its own rows, and no admin account.
     */
    method AdminListUsers(fetchFails: set<int>) returns (list: seq<UserWithSummaries>)
      ensures |list| == |NonAdmins(users)|
      ensures forall u :: u in users && !u.isAdmin ==> AdminEntry(records, u, fetchFails) in list
      ensures forall e :: e in list ==> exists u :: u in users && !u.isAdmin && e == AdminEntry(records, u, fetchFails)
    {
      var selected := NonAdmins(users);
      list := [];
      if |selected| == 0 {
        ListingMatchesNonAdmins(users, records, fetchFails, list);
        return;
      }
      var processed := 0;
      while processed < |selected|
        invariant 0 <= processed <= |selected|
        invariant |list| == processed
        invariant forall k :: 0 <= k < processed ==> list[k] == AdminEntry(records, selected[k], fetchFails)
      {
        var user := selected[processed];
        var data := if user.id in fetchFails then [] else Summaries(OwnedBy(records, user.id));
        list := list + [UserWithSummaries(Summary(user), data)];
        processed := processed + 1;
      }
      ListingMatchesNonAdmins(users, records, fetchFails, list);
    }

    /**
     * `GET /api/admin/users/:userId`: the account with that id, admin or
     * not, with its rows most recent first; "User not found" when no account
     * has the id.
     */
    function AdminGetUser(userId: int): (r: Result<UserWithRecords>)
      reads this
      ensures r.Err? <==> forall u :: u in users ==> u.id != userId
      ensures r.Err? ==> r.error == UserNotFound
      ensures r.Ok? ==> exists u :: u in users && u.id == userId && r.value.user == Summary(u)
      ensures r.Ok? ==> r.value.data == ListByOwner(userId)
    {
      match FirstIndex(users, (u: User) => u.id == userId)
      case None => Err(UserNotFound)
      case Some(i) => Ok(UserWithRecords(Summary(users[i]), ListByOwner(userId)))
    }

    /**
     * `DELETE /api/admin/users/:userId`: delete the account's rows first,
     * then the account. Afterwards the account and its rows are gone and
     * everything else is as it was, in the same order.
     */
    method AdminDeleteUser(userId: int)
      requires Valid()
      modifies this
      ensures Valid()
      ensures lastUserId == old(lastUserId) && lastRecordId == old(lastRecordId)
      ensures records == NotOwnedBy(old(records), userId)
      ensures users == WithoutUser(old(users), userId)
      ensures forall x :: x in records <==> x in old(records) && x.userId != userId
      ensures forall u :: u in users <==> u in old(users) && u.id != userId
      ensures ListByOwner(userId) == [] && AdminGetUser(userId) == Err(UserNotFound)
    {
      FilterRecordsValid(records, lastRecordId, (x: Record) => x.userId != userId);
      records := NotOwnedBy(records, userId);
      WithoutUserValid(users, lastUserId, userId);
      users := WithoutUser(users, userId);
    }
  }

  /**
   * A listing with one entry per non-admin account, in table order, holds
   * exactly the entries of the non-admin accounts.
   */
  lemma ListingMatchesNonAdmins(users: seq<User>, records: seq<Record>, fetchFails: set<int>, list: seq<UserWithSummaries>)
    requires |list| == |NonAdmins(users)|
    requires forall k :: 0 <= k < |list| ==> list[k] == AdminEntry(records, NonAdmins(users)[k], fetchFails)
    ensures forall u :: u in users && !u.isAdmin ==> AdminEntry(records, u, fetchFails) in list
    ensures forall e :: e in list ==> exists u :: u in users && !u.isAdmin && e == AdminEntry(records, u, fetchFails)
  {
    var selected := NonAdmins(users);
    forall u | u in users && !u.isAdmin ensures AdminEntry(records, u, fetchFails) in list {
      assert u in selected;
      var k :| 0 <= k < |selected| && selected[k] == u;
      assert list[k] == AdminEntry(records, u, fetchFails);
    }
    forall e | e in list ensures exists u :: u in users && !u.isAdmin && e == AdminEntry(records, u, fetchFails) {
      var k :| 0 <= k < |list| && list[k] == e;
      assert selected[k] in selected;
    }
  }

  /** The admin listing with its entries in the order the non-admin accounts are selected. */
  function TableOrderListing(users: seq<User>, records: seq<Record>, fetchFails: set<int>): seq<UserWithSummaries> {
    seq(|NonAdmins(users)|, k requires 0 <= k < |NonAdmins(users)| => AdminEntry(records, NonAdmins(users)[k], fetchFails))
  }

  /**
   * The handler pushes each entry when its query completes, so the listing
   * sent is some reordering of the table-order listing. Any such reordering
   * has one entry per non-admin account, holds the entry of every non-admin
   * account, and holds no other entry.
   */
  lemma CompletionOrderListing(users: seq<User>, records: seq<Record>, fetchFails: set<int>, list: seq<UserWithSummaries>)
    requires multiset(list) == multiset(TableOrderListing(users, records, fetchFails))
    ensures |list| == |NonAdmins(users)|
    ensures forall u :: u in users && !u.isAdmin ==> AdminEntry(records, u, fetchFails) in list
    ensures forall e :: e in list ==> exists u :: u in users && !u.isAdmin && e == AdminEntry(records, u, fetchFails)
  {
    var ordered := TableOrderListing(users, records, fetchFails);
    assert |list| == |multiset(list)| == |multiset(ordered)| == |ordered|;
    ListingMatchesNonAdmins(users, records, fetchFails, ordered);
    SameElements(list, ordered);
  }

  /**
   * Two process starts on one database file: the first creates the tables
   * and seeds the admin, the second finds the admin and changes nothing, so
   * exactly one admin account exists.
   */
  method StartTwice(salt: nat, now: Time, laterSalt: nat, later: Time) returns (db: Database)
    ensures fresh(db) && db.Valid()
    ensures db.records == []
    ensures db.users == [User(1, AdminUsername, AdminEmail, Hash(AdminPassword, salt), true, now)]
    ensures db.lastUserId == 2
  {
    db := new Database();
    db.SeedAdmin(salt, now);
    db.SeedAdmin(laterSalt, later);
  }

  /**
   * Save a record for an owner with no records yet, then overwrite it: the
   * owner's listing shows exactly the overwritten row, with its creation
   * time kept and its update time refreshed.
   */
  method SaveThenEdit(db: Database, owner: int, first: Option<string>, second: Option<string>, now: Time, later: Time)
    returns (id: int)
    requires db.Valid() && owner != 0
    requires forall x :: x in db.records ==> x.userId != owner
    modifies db
    ensures db.Valid()
    ensures db.ListByOwner(owner) == [Record(id, owner, "t2", None, second, now, later)]
    ensures forall x :: x in db.ListByOwner(owner) ==> (x.updatedAt > x.createdAt <==> later > now)
  {
    var created := db.CreateRecord(owner, "t1", None, first, now);
    id := created.value;
    ghost var before := db.records;
    var updated := db.UpdateRecord(id, Some("t2"), None, second, later);
    assert db.records[|db.records| - 1] == Record(id, owner, "t2", None, second, now, later);
    forall k | 0 <= k < |db.records| - 1 ensures db.records[k].userId != owner {
      assert before[k] in old(db.records);
    }
    // The overwritten row is the owner's only row, and it occurs once.
    ghost var row := Record(id, owner, "t2", None, second, now, later);
    ghost var n := |db.records|;
    assert db.records == db.records[..n - 1] + [row];
    assert row !in db.records[..n - 1];
    forall x ensures multiset(OwnedBy(db.records, owner))[x] == multiset{row}[x] {
      OwnedByMultiplicity(db.records, owner, x);
    }
    ghost var listed := db.ListByOwner(owner);
    assert multiset(listed) == multiset{row};
    assert |listed| == |multiset(listed)| == 1;
    assert listed[0] in multiset(listed);
  }
}
