/** The in-memory "backend" of the attendance component: the account table and the
    attendance log kept in the browser's local storage, and the computations that the
    `register`, `login` and `attendance` requests perform on them. Everything here is
    a value; the component that holds and updates these values is in module Component. */
module Store {

  datatype Option<T> = None | Some(value: T)

  /** A request either succeeds with a value or throws an Error carrying a message. */
  datatype Result<T> = Ok(value: T) | Err(message: string)

  /** A stored account: the registration form's fields, the captured face image
      (a data URL, or null when nothing was captured), the `Date.now()` id, the
      creation timestamp, and the timestamp of the last successful login. */
  datatype User = User(
    name: string,
    employeeId: string,
    email: string,
    aadhaarNumber: string,
    phone: string,
    password: string,
    faceData: Option<string>,
    id: int,
    createdAt: string,
    lastLogin: Option<string>)

  /** One attendance mark. `userId` refers to `User.id`. */
  datatype Attendance = Attendance(
    id: int,
    userId: int,
    userName: string,
    employeeId: string,
    timestamp: string,
    status: string,
    faceData: Option<string>)

  /** The registration form. */
  datatype Registration = Registration(
    name: string,
    employeeId: string,
    email: string,
    aadhaarNumber: string,
    phone: string,
    password: string)

  /** The login form. */
  datatype Credentials = Credentials(employeeId: string, password: string)

  /** What a storage key holds: nothing (or the empty string, which is just as falsy),
      text that does not parse (with the message the parser throws), or a parsed array. */
  datatype Stored<T> = Absent | Unparseable(parseError: string) | Parsed(items: seq<T>)

  const DuplicateEmployeeId := "Employee ID already exists"
  const InvalidCredentials := "Invalid employee ID or password"
  const Present := "present"
  const Unknown := "Unknown"

  /** Reading a collection never fails: a missing or unparseable value reads as empty. */
  function Load<T>(s: Stored<T>): (r: seq<T>)
    ensures s.Parsed? ==> r == s.items
    ensures !s.Parsed? ==> r == []
  {
    if s.Parsed? then s.items else []
  }

  // ---------------------------------------------------------------------------
  // Lookups

  /** The two predicates the source hands to `find`. */
  datatype Query = EmployeeIs(employeeId: string) | CredentialsAre(credentials: Credentials)

  predicate Matches(u: User, q: Query) {
    match q
    case EmployeeIs(e) => u.employeeId == e
    case CredentialsAre(c) => u.employeeId == c.employeeId && u.password == c.password
  }

  /** Linear scan for the first record matching `q`, as `Array.prototype.find` does. */
  function Find(users: seq<User>, q: Query): (r: Option<nat>)
    ensures r.Some? ==> r.value < |users| && Matches(users[r.value], q)
    ensures r.Some? ==> forall j :: 0 <= j < r.value ==> !Matches(users[j], q)
    ensures r.None? <==> forall j :: 0 <= j < |users| ==> !Matches(users[j], q)
  {
    if |users| == 0 then None
    else if Matches(users[0], q) then Some(0)
    else match Find(users[1..], q)
      case None => None
      case Some(k) => Some(k + 1)
  }

  predicate UniqueEmployeeIds(users: seq<User>) {
    forall i, j :: 0 <= i < j < |users| ==> users[i].employeeId != users[j].employeeId
  }

  predicate UniqueIds(users: seq<User>) {
    forall i, j :: 0 <= i < j < |users| ==> users[i].id != users[j].id
  }

  // ---------------------------------------------------------------------------
  // register

  /** The `register` request on the stored users: refuse a taken employee ID,
      otherwise append one record built from the form, the face payload, `id` and
      `createdAt`. */
  function Register(existing: seq<User>, form: Registration, faceData: Option<string>,
                    id: int, createdAt: string): (r: Result<seq<User>>)
    ensures r.Err? <==> exists i :: 0 <= i < |existing| && existing[i].employeeId == form.employeeId
    ensures r.Err? ==> r.message == DuplicateEmployeeId
    ensures r.Ok? ==> |r.value| == |existing| + 1 && r.value[..|existing|] == existing
    ensures r.Ok? ==>
      var u := r.value[|existing|];
      u.name == form.name && u.employeeId == form.employeeId && u.email == form.email &&
      u.aadhaarNumber == form.aadhaarNumber && u.phone == form.phone &&
      u.password == form.password && u.faceData == faceData &&
      u.id == id && u.createdAt == createdAt && u.lastLogin.None?
  {
    if Find(existing, EmployeeIs(form.employeeId)).Some? then
      Err(DuplicateEmployeeId)
    else
      var newUser := User(form.name, form.employeeId, form.email, form.aadhaarNumber,
                          form.phone, form.password, faceData, id, createdAt, None);
      Ok(existing + [newUser])
  }

  /** Registration keeps employee IDs unique. */
  lemma RegisterKeepsEmployeeIdsUnique(existing: seq<User>, form: Registration,
                                       faceData: Option<string>, id: int, createdAt: string)
    requires UniqueEmployeeIds(existing)
    ensures var r := Register(existing, form, faceData, id, createdAt);
            r.Ok? ==> UniqueEmployeeIds(r.value)
  {
  }

  /** Registration keeps record ids unique when the clock gives an id no record has. */
  lemma RegisterKeepsIdsUnique(existing: seq<User>, form: Registration,
                               faceData: Option<string>, id: int, createdAt: string)
    requires UniqueIds(existing)
    requires forall i :: 0 <= i < |existing| ==> existing[i].id != id
    ensures var r := Register(existing, form, faceData, id, createdAt);
            r.Ok? ==> UniqueIds(r.value)
  {
  }

  // ---------------------------------------------------------------------------
  // login

  /** `users.map(u => u.id === updated.id ? updated : u)`. */
  function ReplaceById(users: seq<User>, updated: User): (r: seq<User>)
    ensures |r| == |users|
    ensures forall i :: 0 <= i < |users| ==>
      r[i] == if users[i].id == updated.id then updated else users[i]
  {
    if users == [] then []
    else [if users[0].id == updated.id then updated else users[0]] + ReplaceById(users[1..], updated)
  }

  /** The `login` request: the first record matching both fields gets `lastLogin := now`,
      and the table is rewritten with that record put back by id. The result holds the
      new table and the logged-in record. */
  function Login(users: seq<User>, credentials: Credentials, now: string): (r: Result<(seq<User>, User)>)
    ensures r.Ok? <==>
      exists i :: 0 <= i < |users| && Matches(users[i], CredentialsAre(credentials))
    ensures r.Err? ==> r.message == InvalidCredentials
    ensures r.Ok? ==>
      var k := Find(users, CredentialsAre(credentials)).value;
      r.value.1 == users[k].(lastLogin := Some(now)) &&
      forall j :: 0 <= j < k ==>
        !(users[j].employeeId == credentials.employeeId && users[j].password == credentials.password)
    ensures r.Ok? ==> |r.value.0| == |users|
    ensures r.Ok? ==> forall i :: 0 <= i < |users| && users[i].id != r.value.1.id ==> r.value.0[i] == users[i]
  {
    match Find(users, CredentialsAre(credentials))
    case None =>
      Err(InvalidCredentials)
    case Some(k) =>
      var u := users[k].(lastLogin := Some(now));
      Ok((ReplaceById(users, u), u))
  }

  /** With unique ids, a successful login changes exactly one record, and only its
      `lastLogin`. */
  lemma LoginTouchesOnlyTheMatch(users: seq<User>, credentials: Credentials, now: string)
    requires UniqueIds(users)
    ensures var r := Login(users, credentials, now);
            r.Ok? ==>
              var k := Find(users, CredentialsAre(credentials)).value;
              r.value.0 == users[k := users[k].(lastLogin := Some(now))]
  {
  }

  /** A successful login never changes which ids the table holds, nor their order. */
  lemma LoginKeepsIds(users: seq<User>, credentials: Credentials, now: string)
    ensures var r := Login(users, credentials, now);
            r.Ok? ==> forall i :: 0 <= i < |users| ==> r.value.0[i].id == users[i].id
  {
  }

  /** With unique ids, login keeps employee IDs unique. */
  lemma LoginKeepsEmployeeIdsUnique(users: seq<User>, credentials: Credentials, now: string)
    requires UniqueIds(users) && UniqueEmployeeIds(users)
    ensures var r := Login(users, credentials, now);
            r.Ok? ==> UniqueIds(r.value.0) && UniqueEmployeeIds(r.value.0)
  {
  }

  /** When two records share an id, logging in as one overwrites the other with it:
      the `map` by id does not tell them apart. */
  lemma LoginOverwritesSharedId(users: seq<User>, credentials: Credentials, now: string, j: nat)
    requires j < |users|
    ensures var r := Login(users, credentials, now);
            r.Ok? && users[j].id == r.value.1.id ==> r.value.0[j] == r.value.1
  {
  }

  /** The first record matching `q` in `a + [x]`, when none of `a` matches and `x` does. */
  lemma {:induction false} FindAfter(a: seq<User>, x: User, q: Query)
    requires forall i :: 0 <= i < |a| ==> !Matches(a[i], q)
    requires Matches(x, q)
    ensures Find(a + [x], q) == Some(|a|)
  {
    if a != [] {
      assert (a + [x])[1..] == a[1..] + [x];
      FindAfter(a[1..], x, q);
    }
  }

  /** Round trip: right after a successful registration, logging in with the same
      employee ID and password succeeds and yields the new account. */
  lemma RegisterThenLogin(existing: seq<User>, form: Registration, faceData: Option<string>,
                          id: int, createdAt: string, now: string)
    ensures var reg := Register(existing, form, faceData, id, createdAt);
            reg.Ok? ==>
              var login := Login(reg.value, Credentials(form.employeeId, form.password), now);
              login.Ok? && login.value.1 == reg.value[|existing|].(lastLogin := Some(now))
  {
  }

  /** ... and any other password for that employee ID is refused. */
  lemma RegisterThenWrongPassword(existing: seq<User>, form: Registration, faceData: Option<string>,
                                  id: int, createdAt: string, password: string, now: string)
    requires password != form.password
    ensures var reg := Register(existing, form, faceData, id, createdAt);
            reg.Ok? ==> Login(reg.value, Credentials(form.employeeId, password), now).Err?
  {
  }

  // ---------------------------------------------------------------------------
  // attendance

  /** The `attendance` request on the in-memory log: a `"present"` record goes in
      front. Name and employee ID come from the session user, `"Unknown"` when empty. */
  function MarkPresent(log: seq<Attendance>, id: int, user: User, timestamp: string,
                       faceData: Option<string>): (r: seq<Attendance>)
    ensures |r| == |log| + 1 && r[1..] == log
    ensures r[0].id == id && r[0].userId == user.id && r[0].status == Present
    ensures r[0].timestamp == timestamp && r[0].faceData == faceData
    ensures r[0].userName == (if user.name == "" then Unknown else user.name)
    ensures r[0].employeeId == (if user.employeeId == "" then Unknown else user.employeeId)
  {
    var record := Attendance(id, user.id,
                             if user.name != "" then user.name else Unknown,
                             if user.employeeId != "" then user.employeeId else Unknown,
                             timestamp, Present, faceData);
    [record] + log
  }

  /** `records.filter(a => a.userId === userId)`. */
  function ForUser(records: seq<Attendance>, userId: int): (r: seq<Attendance>)
    ensures |r| <= |records|
    ensures forall a :: a in r ==> a in records && a.userId == userId
    ensures forall a :: a in records && a.userId == userId ==> a in r
  {
    if records == [] then []
    else if records[0].userId == userId then [records[0]] + ForUser(records[1..], userId)
    else ForUser(records[1..], userId)
  }

  /** Filtering keeps stored order: it distributes over concatenation. */
  lemma {:induction false} ForUserAppend(a: seq<Attendance>, b: seq<Attendance>, userId: int)
    ensures ForUser(a + b, userId) == ForUser(a, userId) + ForUser(b, userId)
  {
    if a != [] {
      assert (a + b)[0] == a[0];
      assert (a + b)[1..] == a[1..] + b;
      ForUserAppend(a[1..], b, userId);
    } else {
      assert a + b == b;
    }
  }

  /** A log that only holds one user's records is its own filter for that user. */
  lemma {:induction false} ForUserOwn(records: seq<Attendance>, userId: int)
    requires forall i :: 0 <= i < |records| ==> records[i].userId == userId
    ensures ForUser(records, userId) == records
  {
    if records != [] {
      ForUserOwn(records[1..], userId);
    }
  }

  /** A log holding none of a user's records filters to nothing for that user. */
  lemma {:induction false} ForUserNone(records: seq<Attendance>, userId: int)
    requires forall i :: 0 <= i < |records| ==> records[i].userId != userId
    ensures ForUser(records, userId) == []
  {
    if records != [] {
      ForUserNone(records[1..], userId);
    }
  }

  /** Filtering twice is filtering once. */
  lemma ForUserIdempotent(records: seq<Attendance>, userId: int)
    ensures ForUser(ForUser(records, userId), userId) == ForUser(records, userId)
  {
  }

  /** Marking attendance after a login writes back only that user's history plus the
      new record: every record of any other user is gone from the written log, while
      the user's own history is kept whole and in order. */
  lemma MarkAfterLoginKeepsOnlyOwnHistory(all: seq<Attendance>, id: int, user: User,
                                          timestamp: string, faceData: Option<string>, other: int)
    requires other != user.id
    ensures var written := MarkPresent(ForUser(all, user.id), id, user, timestamp, faceData);
            ForUser(written, user.id) == [written[0]] + ForUser(all, user.id) &&
            ForUser(written, other) == []
  {
    var own := ForUser(all, user.id);
    var written := MarkPresent(own, id, user, timestamp, faceData);
    var record := written[0];
    assert written == [record] + own;
    assert record.userId == user.id;
    ForUserAppend([record], own, user.id);
    assert ForUser([record], user.id) == [record];
    ForUserIdempotent(all, user.id);
    forall i | 0 <= i < |written| ensures written[i].userId == user.id {
      if i > 0 {
        assert written[i] == own[i - 1];
        assert own[i - 1] in own;
      }
    }
    ForUserNone(written, other);
  }
}
