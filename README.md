# Attendance system: the component's store and handlers in Dafny

The attendance app is a single React component. It keeps an account table and an
attendance log in the browser's local storage, under the keys `attendanceUsers` and
`attendanceRecords`. It offers three screens: login, registration and a dashboard.
The component's own `apiCall` function stands in for a backend, with three endpoints:

- `register` refuses an employee ID that is already taken, and otherwise appends a new
  account.
- `login` finds the first account whose employee ID and password both match. It stamps
  that account's `lastLogin` and writes the table back.
- `attendance` puts a `"present"` record in front of the in-memory log and writes the
  whole log to storage.

The login handler then replaces the in-memory log with the stored records whose
`userId` is the logged-in account's id.

This project models that part of `src/components/AttendanceSystem.jsx`, in two files:

- `store.dfy` (module `Store`) holds the records, a stored collection, and the request
  computations (find, append, map by id, prepend, filter) as pure functions. The lemmas
  about them are in the same module.
- `attendance_system.dfy` (module `Component`) holds class `AttendanceSystem`. Its
  fields are the component's state:
  - `view`, `user`, `attendanceData`, the two form buffers, `loading`, `message`,
    `faceCapture` and `faceImageCaptured`;
  - the two storage keys.

  Each event handler is a method. Each method's postcondition gives the whole new state
  as an update of `State()`, the snapshot of all fields, written in terms of the
  `Store` functions.

`Valid()` is the class invariant. Every handler keeps it. It says:

- no request is in flight between events;
- the dashboard is shown exactly when someone is logged in;
- a face counts as captured only while the camera is on;
- the in-memory log is empty whenever storage holds no readable log;
- while a user is logged in, the in-memory log is exactly that user's stored records,
  in stored order.

The model keeps two behaviours of the code exactly as written.

1. Marking attendance writes only the logged-in user's history, plus the new record, back
   to storage. Every other user's records are dropped; see
   `Store.MarkAfterLoginKeepsOnlyOwnHistory`.
2. Login writes the matched record over every record that has the same `id`. This is
   harmless only while ids are unique; see `Store.LoginOverwritesSharedId` and
   `Store.LoginTouchesOnlyTheMatch`.

Storage keys are modelled as `Stored<T>`, which has three cases:

- `Absent`: the key is missing. The empty string is treated the same way, because it is
  just as falsy.
- `Unparseable(parseError)`: the text does not parse. `parseError` is the message the
  JSON parser throws.
- `Parsed(items)`: the text parsed to an array.

A read through the storage helpers turns the first two cases into the empty sequence.
The login handler reads the attendance key itself. For `Absent` it leaves the in-memory
log alone. For `Unparseable` its parse throws after the session has already been set,
so the model ends on the dashboard with the message `"Login failed: "` followed by the
parser's message.

These come in as parameters:

- the clock: the `Date.now()` ids and the ISO timestamps;
- the camera frame: the data URL the canvas would encode;
- whether camera access is granted;
- the answer to the confirmation dialog.

The request handlers, the navigation links, `ClearAllData` and `Logout` require
`Valid()`, which includes `!loading`: the submit buttons are `disabled={loading}`. The
form inputs, the camera methods and `DismissMessage` need nothing; they keep `Valid()`
when it held before. A method whose button appears on only one screen, and that would
break `Valid()` if called elsewhere, also requires that screen:

- `HandleRegister` and `GoToLogin` require the registration page;
- `HandleLogin` and `GoToRegister` require the login page;
- `MarkAttendance` requires the dashboard.

## Model

| member | source | states |
|---|---|---|
| `Store.Load` | src/components/AttendanceSystem.jsx:77-85 | reading a stored collection never fails: a parsed array reads as itself, a missing or unparseable value as the empty sequence |
| `Store.Find` | src/components/AttendanceSystem.jsx:105-107 | the result is the index of the first matching record (it matches, and no earlier one does); no result exactly when no record matches |
| `Store.FindAfter` | src/components/AttendanceSystem.jsx:127-130 | when no record of a table matches and the record appended after it does, the scan finds the appended record |
| `Store.Register` | src/components/AttendanceSystem.jsx:101-123 | fails with "Employee ID already exists" exactly when some stored record has the submitted employee ID; otherwise the new table is the old one unchanged plus one last record holding the form fields, the face payload, the given `id` and `createdAt`, and no `lastLogin` |
| `Store.RegisterKeepsEmployeeIdsUnique` | src/components/AttendanceSystem.jsx:105-120 | if stored employee IDs are unique, they stay unique after a successful registration |
| `Store.RegisterKeepsIdsUnique` | src/components/AttendanceSystem.jsx:113-119 | if record ids are unique and the clock gives an id no record has, ids stay unique after registration |
| `Store.ReplaceById` | src/components/AttendanceSystem.jsx:135 | same length; each position holds the updated record when its id equals the updated record's id, and is otherwise untouched |
| `Store.Login` | src/components/AttendanceSystem.jsx:125-141 | succeeds exactly when some record matches both employee ID and password; returns the first such record with `lastLogin` set to now; fails with "Invalid employee ID or password" otherwise; on success the table has the same length and every record whose id differs from the match's is untouched |
| `Store.LoginTouchesOnlyTheMatch` | src/components/AttendanceSystem.jsx:132-136 | with unique ids, the table after a successful login is the old table with only the matched record's `lastLogin` changed |
| `Store.LoginKeepsIds` | src/components/AttendanceSystem.jsx:135 | a successful login keeps the id at every position of the table |
| `Store.LoginKeepsEmployeeIdsUnique` | src/components/AttendanceSystem.jsx:127-136 | with unique ids, login keeps both ids and employee IDs unique |
| `Store.LoginOverwritesSharedId` | src/components/AttendanceSystem.jsx:135 | every record that shares the matched record's id is replaced by the matched record |
| `Store.RegisterThenLogin` | src/components/AttendanceSystem.jsx:113-138 | right after a successful registration, logging in with the same employee ID and password succeeds and yields the new account |
| `Store.RegisterThenWrongPassword` | src/components/AttendanceSystem.jsx:119-140 | right after a successful registration, logging in with that employee ID and any other password fails |
| `Store.MarkPresent` | src/components/AttendanceSystem.jsx:143-158 | the new log is one record longer, its tail is the prior log unchanged, and its head carries the given id, the session user's id, `"present"`, the timestamp and the face payload, with name and employee ID falling back to "Unknown" when empty |
| `Store.ForUser` | src/components/AttendanceSystem.jsx:273-275 | the filtered log holds only records of the given user, all taken from the input, and every such record of the input is in it |
| `Store.ForUserAppend` | src/components/AttendanceSystem.jsx:273-275 | filtering distributes over concatenation, so stored order is kept |
| `Store.ForUserOwn` | src/components/AttendanceSystem.jsx:273-275 | a log holding only one user's records filters to itself for that user |
| `Store.ForUserNone` | src/components/AttendanceSystem.jsx:273-275 | a log holding none of a user's records filters to nothing for that user |
| `Store.ForUserIdempotent` | src/components/AttendanceSystem.jsx:273-275 | filtering twice equals filtering once |
| `Store.MarkAfterLoginKeepsOnlyOwnHistory` | src/components/AttendanceSystem.jsx:154-156 | after a login filtered the in-memory log, the log written by marking attendance holds the new record plus the user's whole prior history, and no record of any other user |
| `Component.AttendanceSystem.constructor` | src/components/AttendanceSystem.jsx:42-53 | initial state: login view, nobody logged in, empty forms and message, camera off, and the whole stored log loaded when it parses |
| `Component.AttendanceSystem.EditRegistration` | src/components/AttendanceSystem.jsx:446-545 | only the registration form changes |
| `Component.AttendanceSystem.EditLogin` | src/components/AttendanceSystem.jsx:342-361 | only the login form changes |
| `Component.AttendanceSystem.GoToRegister` | src/components/AttendanceSystem.jsx:390 | only the view changes, from login to register |
| `Component.AttendanceSystem.GoToLogin` | src/components/AttendanceSystem.jsx:613 | only the view changes, from register to login; the camera keeps its state |
| `Component.AttendanceSystem.DismissMessage` | src/components/AttendanceSystem.jsx:811 | only the message changes, to empty |
| `Component.AttendanceSystem.StartCamera` | src/components/AttendanceSystem.jsx:169-182 | granted access turns the camera on; refused access only sets "Camera access denied or not available" |
| `Component.AttendanceSystem.StopCamera` | src/components/AttendanceSystem.jsx:184-190 | the camera is off and no face counts as captured; nothing else changes |
| `Component.AttendanceSystem.CaptureImage` | src/components/AttendanceSystem.jsx:192-208 | while the video element is on screen, returns the frame, marks the face captured and sets "Face captured successfully!"; otherwise returns nothing and changes nothing |
| `Component.AttendanceSystem.ApiRegister` | src/components/AttendanceSystem.jsx:95-123 | the response is `Store.Register` on the stored users; the users key is written only on success; `loading` ends false |
| `Component.AttendanceSystem.ApiLogin` | src/components/AttendanceSystem.jsx:125-141 | the response is `Store.Login` on the stored users; the users key is written only on success; `loading` ends false |
| `Component.AttendanceSystem.ApiAttendance` | src/components/AttendanceSystem.jsx:143-159 | the new record, for the session user with status "present", is put in front of the in-memory log, and that same log is written to the attendance key; `loading` ends false |
| `Component.AttendanceSystem.HandleRegister` | src/components/AttendanceSystem.jsx:210-253 | an incomplete form or a face not yet captured only sets the matching error message; otherwise a duplicate employee ID only sets "Registration failed: Employee ID already exists", and a fresh one stores the account, switches to login, clears the form and stops the camera |
| `Component.AttendanceSystem.HandleLogin` | src/components/AttendanceSystem.jsx:255-282 | an empty field only sets the error message; wrong credentials only set "Login failed: ..."; a match writes the users key, sets the session user and the dashboard view, and replaces the in-memory log with that user's stored records when the attendance key parses, keeps it when the key is absent, and ends with "Login failed: " and the parser's message when the key does not parse |
| `Component.AttendanceSystem.OpenDashboard` | src/components/AttendanceSystem.jsx:264-277 | the session user and the dashboard are set with "Login successful!"; a parsed stored log is filtered to that user's records in stored order, an absent one leaves the in-memory log alone, an unparseable one ends with "Login failed: " and the parser's message; the class invariant holds afterwards |
| `Component.AttendanceSystem.MarkAttendance` | src/components/AttendanceSystem.jsx:284-305 | with the camera off (or an empty frame) only the message changes; otherwise the new record goes in front of the in-memory log, the same log is written to storage, and the camera stops; `Valid()` keeps the dashboard log equal to the user's stored records |
| `Component.AttendanceSystem.ClearAllData` | src/components/AttendanceSystem.jsx:307-318 | when confirmed, both keys are removed and the in-memory log emptied; when not, nothing changes |
| `Component.AttendanceSystem.Logout` | src/components/AttendanceSystem.jsx:664-669 | back to the login view with nobody logged in, the camera stopped and the in-memory log empty |

## Left out

- Rendering, styling, the password-visibility toggle and the message colouring are not
  modelled, because they only decide what is drawn.
- Camera devices are not modelled: the video stream, attaching it to the video element,
  stopping its tracks, and drawing and encoding the frame. Access is a boolean, and the
  encoded frame is a string parameter.
- The one-second artificial delay and async scheduling are not modelled. Each handler is
  one atomic step, so `loading` is only seen to end false.
- The online/offline indicator is not modelled, because it is display only.
- JSON serialisation, storage write failures and `console.error` are not modelled. A
  write always succeeds, and the stored value is exactly the written array.
- A storage key holding valid JSON that is not an array of records (for example `null`)
  is not modelled. In the source, the later `find` or `filter` on such a value throws.
- The `apiCall` branch for an unknown endpoint is not modelled, because no handler
  reaches it.
- The catch branch of `markAttendance` is not modelled, because nothing in the modelled
  request throws once a user is logged in.
- The `timestamp` field of the attendance request is not modelled, because the source
  never reads it.
- `Component.AttendanceSystem.EditRegistration`: each input's change event sets one
  field of the form. The model sets the whole form in one step, which can express every
  such change.
