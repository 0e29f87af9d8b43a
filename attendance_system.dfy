/** The attendance component: its React state as the fields of a class, each event
    handler as a method that runs to completion in one step. Storage is two fields
    holding what the `attendanceUsers` and `attendanceRecords` keys hold; the clock,
    `Date.now()` ids, the camera frame and the confirmation dialog are parameters. */
module Component {
  import opened Store

  datatype View = LoginView | RegisterView | Dashboard

  /** Every field of the component at once, so that a handler's postcondition can say
      in one equation which fields it sets and that all others keep their values. */
  datatype ComponentState = ComponentState(
    view: View,
    user: Option<User>,
    attendanceData: seq<Attendance>,
    registrationData: Registration,
    loginData: Credentials,
    loading: bool,
    message: string,
    faceCapture: bool,
    faceImageCaptured: bool,
    usersStore: Stored<User>,
    recordsStore: Stored<Attendance>)

  const EmptyRegistration := Registration("", "", "", "", "", "")
  const EmptyCredentials := Credentials("", "")

  const FillAllFields := "Please fill all required fields"
  const CaptureFaceFirst := "Please capture your face first"
  const RegistrationSuccessful := "Registration successful! You can now login."
  const RegistrationFailed := "Registration failed: "
  const EnterBoth := "Please enter both Employee ID and Password"
  const LoginSuccessful := "Login successful!"
  const LoginFailed := "Login failed: "
  const CaptureForAttendance := "Please capture your face for attendance"
  const AttendanceMarked := "Attendance marked successfully!"
  const DataCleared := "All data cleared successfully"
  const CameraUnavailable := "Camera access denied or not available"
  const FaceCaptured := "Face captured successfully!"

  /** Name, employee ID, email, phone and password are all non-empty (Aadhaar is optional). */
  predicate RegistrationComplete(form: Registration) {
    form.name != "" && form.employeeId != "" && form.email != "" &&
    form.phone != "" && form.password != ""
  }

  /** The state after a successful login response: the session and the dashboard set,
      then the stored log read again. A missing log leaves the in-memory one alone; an
      unparseable one throws, and the catch replaces the success message; a parsed one
      is filtered down to the user's own records. */
  function SignedIn(s: ComponentState, u: User): ComponentState {
    var signedIn := s.(user := Some(u), view := Dashboard, message := LoginSuccessful);
    match s.recordsStore
    case Absent => signedIn
    case Unparseable(parseError) => signedIn.(message := LoginFailed + parseError)
    case Parsed(all) => signedIn.(attendanceData := ForUser(all, u.id))
  }

  class AttendanceSystem {
    var view: View
    var user: Option<User>
    var attendanceData: seq<Attendance>
    var registrationData: Registration
    var loginData: Credentials
    var loading: bool
    var message: string
    var faceCapture: bool
    var faceImageCaptured: bool
    var usersStore: Stored<User>
    var recordsStore: Stored<Attendance>

    function State(): ComponentState
      reads this
    {
      ComponentState(view, user, attendanceData, registrationData, loginData, loading,
                     message, faceCapture, faceImageCaptured, usersStore, recordsStore)
    }

    /** What holds between events: no request is in flight, the dashboard is shown
        exactly when someone is logged in, a face is marked captured only while the
        camera is on, the in-memory log is empty whenever storage has no readable
        log, and a logged-in user sees exactly their own stored records. */
    predicate Valid()
      reads this
    {
      && !loading
      && (view == Dashboard <==> user.Some?)
      && (faceImageCaptured ==> faceCapture)
      && (!recordsStore.Parsed? ==> attendanceData == [])
      && (user.Some? ==> attendanceData == ForUser(Load(recordsStore), user.value.id))
    }

    /** The `<video>` and `<canvas>` elements exist only while the camera panel of the
        registration page or the dashboard is shown. */
    predicate CameraMounted()
      reads this
    {
      faceCapture && (view == RegisterView || view == Dashboard)
    }

    /** First render plus the mount effect, which loads the whole stored log. */
    constructor (users: Stored<User>, records: Stored<Attendance>)
      ensures Valid()
      ensures State() == ComponentState(LoginView, None, Load(records), EmptyRegistration,
                                        EmptyCredentials, false, "", false, false, users, records)
    {
      view := LoginView;
      user := None;
      attendanceData := Load(records);
      registrationData := EmptyRegistration;
      loginData := EmptyCredentials;
      loading := false;
      message := "";
      faceCapture := false;
      faceImageCaptured := false;
      usersStore := users;
      recordsStore := records;
    }

    // -------------------------------------------------------------------------
    // Form inputs and navigation

    method EditRegistration(form: Registration)
      modifies this
      ensures State() == old(State()).(registrationData := form)
      ensures old(Valid()) ==> Valid()
    {
      registrationData := form;
    }

    method EditLogin(credentials: Credentials)
      modifies this
      ensures State() == old(State()).(loginData := credentials)
      ensures old(Valid()) ==> Valid()
    {
      loginData := credentials;
    }

    /** The "Register here" link on the login page. */
    method GoToRegister()
      requires Valid() && view == LoginView
      modifies this
      ensures Valid()
      ensures State() == old(State()).(view := RegisterView)
    {
      view := RegisterView;
    }

    /** The "Sign in here" link on the registration page; the camera is left running. */
    method GoToLogin()
      requires Valid() && view == RegisterView
      modifies this
      ensures Valid()
      ensures State() == old(State()).(view := LoginView)
    {
      view := LoginView;
    }

    /** The close button of the message banner. */
    method DismissMessage()
      modifies this
      ensures State() == old(State()).(message := "")
      ensures old(Valid()) ==> Valid()
    {
      message := "";
    }

    // -------------------------------------------------------------------------
    // Camera

    /** `granted` is whether the browser hands out a video stream. */
    method StartCamera(granted: bool)
      modifies this
      ensures granted ==> State() == old(State()).(faceCapture := true)
      ensures !granted ==> State() == old(State()).(message := CameraUnavailable)
      ensures old(Valid()) ==> Valid()
    {
      if granted {
        faceCapture := true;
      } else {
        message := CameraUnavailable;
      }
    }

    method StopCamera()
      modifies this
      ensures State() == old(State()).(faceCapture := false, faceImageCaptured := false)
      ensures old(Valid()) ==> Valid()
    {
      faceCapture := false;
      faceImageCaptured := false;
    }

    /** `frame` is the encoded still the canvas would produce. Nothing is captured
        while the video element is not on screen. */
    method CaptureImage(frame: string) returns (faceData: Option<string>)
      modifies this
      ensures old(CameraMounted()) ==>
        faceData == Some(frame) &&
        State() == old(State()).(faceImageCaptured := true, message := FaceCaptured)
      ensures !old(CameraMounted()) ==> faceData == None && State() == old(State())
      ensures old(Valid()) ==> Valid()
    {
      if CameraMounted() {
        faceImageCaptured := true;
        message := FaceCaptured;
        faceData := Some(frame);
      } else {
        faceData := None;
      }
    }

    // -------------------------------------------------------------------------
    // The mocked request function, one method per endpoint. `loading` is raised on
    // entry and lowered on every way out.

    method ApiRegister(form: Registration, faceData: Option<string>, id: int, createdAt: string)
      returns (response: Result<seq<User>>)
      modifies this
      ensures response == Register(Load(old(usersStore)), form, faceData, id, createdAt)
      ensures State() == old(State()).(
        loading := false,
        usersStore := if response.Ok? then Parsed(response.value) else old(usersStore))
    {
      loading := true;
      response := Register(Load(usersStore), form, faceData, id, createdAt);
      if response.Ok? {
        usersStore := Parsed(response.value);
      }
      loading := false;
    }

    method ApiLogin(credentials: Credentials, now: string)
      returns (response: Result<(seq<User>, User)>)
      modifies this
      ensures response == Login(Load(old(usersStore)), credentials, now)
      ensures State() == old(State()).(
        loading := false,
        usersStore := if response.Ok? then Parsed(response.value.0) else old(usersStore))
    {
      loading := true;
      response := Login(Load(usersStore), credentials, now);
      if response.Ok? {
        usersStore := Parsed(response.value.0);
      }
      loading := false;
    }

    /** The new log is both the in-memory list and the value written to storage. */
    method ApiAttendance(sessionUser: User, id: int, timestamp: string, faceData: Option<string>)
      returns (record: Attendance)
      modifies this
      ensures record.userId == sessionUser.id && record.status == Present
      ensures State() == old(State()).(
        loading := false,
        attendanceData := [record] + old(attendanceData),
        recordsStore := Parsed([record] + old(attendanceData)))
      ensures attendanceData == MarkPresent(old(attendanceData), id, sessionUser, timestamp, faceData)
    {
      loading := true;
      var updated := MarkPresent(attendanceData, id, sessionUser, timestamp, faceData);
      record := updated[0];
      attendanceData := updated;
      recordsStore := Parsed(updated);
      loading := false;
    }

    // -------------------------------------------------------------------------
    // Handlers

    /** Submit the registration form. `frame` is the still captured for the request,
        `id` and `createdAt` come from the clock. */
    method HandleRegister(frame: string, id: int, createdAt: string)
      requires Valid() && view == RegisterView
      modifies this
      ensures Valid()
      ensures !RegistrationComplete(old(registrationData)) ==>
        State() == old(State()).(message := FillAllFields)
      ensures RegistrationComplete(old(registrationData)) && !old(faceImageCaptured) ==>
        State() == old(State()).(message := CaptureFaceFirst)
      ensures RegistrationComplete(old(registrationData)) && old(faceImageCaptured) ==>
        var response := Register(Load(old(usersStore)), old(registrationData), Some(frame), id, createdAt);
        response.Ok? ==>
          State() == old(State()).(usersStore := Parsed(response.value), view := LoginView,
                                   message := RegistrationSuccessful,
                                   registrationData := EmptyRegistration,
                                   faceCapture := false, faceImageCaptured := false)
      ensures RegistrationComplete(old(registrationData)) && old(faceImageCaptured) ==>
        var response := Register(Load(old(usersStore)), old(registrationData), Some(frame), id, createdAt);
        response.Err? ==> State() == old(State()).(message := RegistrationFailed + response.message)
    {
      if !RegistrationComplete(registrationData) {
        message := FillAllFields;
        return;
      }
      if !faceImageCaptured {
        message := CaptureFaceFirst;
        return;
      }
      var faceData := CaptureImage(frame);
      var response := ApiRegister(registrationData, faceData, id, createdAt);
      if response.Ok? {
        message := RegistrationSuccessful;
        view := LoginView;
        StopCamera();
        registrationData := EmptyRegistration;
        faceImageCaptured := false;
      } else {
        message := RegistrationFailed + response.message;
      }
    }

    /** Submit the login form; `now` is the clock reading stored as `lastLogin`. */
    method HandleLogin(now: string)
      requires Valid() && view == LoginView
      modifies this
      ensures Valid()
      ensures old(loginData.employeeId == "" || loginData.password == "") ==>
        State() == old(State()).(message := EnterBoth)
      ensures old(loginData.employeeId != "" && loginData.password != "") ==>
        var response := Login(Load(old(usersStore)), old(loginData), now);
        response.Err? ==> State() == old(State()).(message := LoginFailed + response.message)
      ensures old(loginData.employeeId != "" && loginData.password != "") ==>
        var response := Login(Load(old(usersStore)), old(loginData), now);
        response.Ok? ==>
          State() == SignedIn(old(State()).(usersStore := Parsed(response.value.0)), response.value.1)
    {
      if loginData.employeeId == "" || loginData.password == "" {
        message := EnterBoth;
        return;
      }
      var response := ApiLogin(loginData, now);
      if response.Ok? {
        OpenDashboard(response.value.1);
      } else {
        message := LoginFailed + response.message;
      }
    }

    /** What the login handler does with a successful response. */
    method OpenDashboard(signedInUser: User)
      requires !loading && user.None? && view == LoginView && (faceImageCaptured ==> faceCapture)
      requires !recordsStore.Parsed? ==> attendanceData == []
      modifies this
      ensures Valid() && user == Some(signedInUser) && view == Dashboard
      ensures State() == SignedIn(old(State()), signedInUser)
    {
      user := Some(signedInUser);
      view := Dashboard;
      message := LoginSuccessful;
      match recordsStore
      case Absent =>
        assert ForUser([], signedInUser.id) == [];
      case Unparseable(parseError) =>
        // JSON.parse throws after the session is set; the catch overwrites the message.
        message := LoginFailed + parseError;
        assert ForUser([], signedInUser.id) == [];
      case Parsed(all) =>
        attendanceData := ForUser(all, signedInUser.id);
    }

    /** The "Mark Attendance" button; `frame` is the still captured for the request,
        `id` and `timestamp` come from the clock. */
    method MarkAttendance(frame: string, id: int, timestamp: string)
      requires Valid() && view == Dashboard
      modifies this
      ensures Valid()
      ensures !old(faceCapture) ==> State() == old(State()).(message := CaptureForAttendance)
      ensures old(faceCapture) && frame == "" ==>
        State() == old(State()).(faceImageCaptured := true, message := CaptureForAttendance)
      ensures old(faceCapture) && frame != "" ==>
        var log := MarkPresent(old(attendanceData), id, old(user).value, timestamp, Some(frame));
        State() == old(State()).(attendanceData := log, recordsStore := Parsed(log),
                                 message := AttendanceMarked,
                                 faceCapture := false, faceImageCaptured := false)
    {
      var faceData := CaptureImage(frame);
      if faceData.None? || faceData.value == "" {
        message := CaptureForAttendance;
        return;
      }
      var sessionUser := user.value;
      ghost var before := attendanceData;
      var record := ApiAttendance(sessionUser, id, timestamp, faceData);
      ForUserIdempotent(Load(old(recordsStore)), sessionUser.id);
      ForUserAppend([record], before, sessionUser.id);
      message := AttendanceMarked;
      StopCamera();
    }

    /** The "Clear All Data" link; `confirmed` is the answer to the confirmation dialog. */
    method ClearAllData(confirmed: bool)
      requires Valid()
      modifies this
      ensures Valid()
      ensures confirmed ==>
        State() == old(State()).(usersStore := Absent, recordsStore := Absent,
                                 attendanceData := [], message := DataCleared)
      ensures !confirmed ==> State() == old(State())
    {
      if confirmed {
        usersStore := Absent;
        recordsStore := Absent;
        attendanceData := [];
        message := DataCleared;
      }
    }

    /** The dashboard's "Logout" button. */
    method Logout()
      requires Valid()
      modifies this
      ensures Valid()
      ensures State() == old(State()).(user := None, view := LoginView, attendanceData := [],
                                       faceCapture := false, faceImageCaptured := false)
    {
      user := None;
      view := LoginView;
      StopCamera();
      attendanceData := [];
    }
  }

  /** Register, log in and mark attendance once, starting from empty storage. */
  method FirstDayScenario(frame: string)
    requires frame != ""
  {
    var app := new AttendanceSystem(Absent, Absent);
    app.GoToRegister();
    app.EditRegistration(Registration("Asha", "E1", "a@x.com", "", "1234567890", "pw1"));
    app.StartCamera(true);
    var captured := app.CaptureImage(frame);
    assert app.faceImageCaptured;
    app.HandleRegister(frame, 1, "t0");
    assert app.view == LoginView && app.message == RegistrationSuccessful;
    app.EditLogin(Credentials("E1", "pw1"));
    app.HandleLogin("t1");
    assert app.view == Dashboard && app.user.Some? && app.attendanceData == [];
    app.StartCamera(true);
    app.MarkAttendance(frame, 2, "t2");
    assert |app.attendanceData| == 1;
    assert app.attendanceData[0].userId == 1 && app.attendanceData[0].status == Present;
    assert app.recordsStore == Parsed(app.attendanceData);
  }
}
