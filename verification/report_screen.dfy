/** The report screen (app/report.tsx): take a photo, attach a freshly
    fetched location, preview it, and hand a prefilled email to the mail app.

    The screen's state is the pair `showCamera` / `photoData`, plus the
    location fetched once at mount (kept but never read). Two further flags
    record which asynchronous work is still outstanding: the mount-time
    location request, and the launch the mounted camera component performs
    once. Every platform answer (permission status, camera result, location
    fetch, `canOpenURL`) is part of the event that delivers it. */
module ReportScreen {
  import opened Wrappers
  import opened Platform
  import Strings
  import PercentEncoding
  import Camera = ImagePickerCamera

  /** A captured photo with the fix fetched right after it and the capture time. */
  datatype PhotoData = PhotoData(uri: string, location: Option<Fix>, timestamp: Timestamp)

  datatype ScreenState = ScreenState(
    showCamera: bool,
    photoData: Option<PhotoData>,
    location: Option<Fix>,
    locationRequestPending: bool,
    cameraLaunchPending: bool)

  /** No camera, no photo, no fix; the mount-time location request is under way. */
  const Initial := ScreenState(false, None, None, true, false)

  /** What `getCurrentPositionAsync` does after a capture: resolve with a fix
      (the handler then reads the clock), or reject. */
  datatype FixOutcome = FixAcquired(fix: Fix, now: Timestamp) | FixFailed

  datatype Event =
      /** The mount-time permission request and fix resolve (`initialFix` is None when the fetch rejects). */
    | MountLocationResolved(status: PermissionStatus, initialFix: Option<Fix>)
    | OpenCameraPressed
      /** The mounted camera component's one run completes, with the platform's
          answers to it and to the location fetch that a photo triggers. */
    | CameraFinished(permission: Camera.PermissionResponse, choice: Camera.AlertChoice,
                     launch: Camera.LaunchResponse, fix: FixOutcome)
    | RetakePressed
      /** Send is pressed; `supported` is what `canOpenURL` resolves with, or
          None when its promise rejects (the code attaches no handler for that). */
    | SendPressed(supported: Option<bool>)

  datatype Transition = Transition(next: ScreenState, effects: seq<Effect>)

  const LocationFailedAlert := ShowAlert("Error", "Failed to capture location. Please try again.")
  const MailUnavailableAlert := ShowAlert("Error", "Email app not available on this device.")

  /** `setShowCamera(show)`. Showing the camera view mounts the camera
      component, whose mount effect launches the camera once; hiding it
      unmounts the component. */
  function SetShowCamera(s: ScreenState, show: bool): ScreenState {
    s.(showCamera := show, cameraLaunchPending := show && (s.cameraLaunchPending || !s.showCamera))
  }

  /** `openCamera`. */
  function OpenCamera(s: ScreenState): (r: ScreenState)
    ensures r.showCamera && r.photoData == s.photoData && r.location == s.location
    ensures !s.showCamera ==> r.cameraLaunchPending
  {
    SetShowCamera(s, true)
  }

  /** `handlePhotoTaken`. With a fix, the report is the given URI with that
      fresh fix and the current time, and the camera closes. Without one, an
      alert is the only consequence: no report is made and the camera view
      stays. */
  function HandlePhotoTaken(s: ScreenState, uri: string, fix: FixOutcome): (t: Transition)
    ensures fix.FixAcquired? ==>
      && t.next.photoData == Some(PhotoData(uri, Some(fix.fix), fix.now))
      && !t.next.showCamera
      && t.next.location == s.location
      && t.effects == []
    ensures fix.FixFailed? ==> t.next == s && t.effects == [LocationFailedAlert]
  {
    match fix
    case FixAcquired(f, now) =>
      Transition(SetShowCamera(s.(photoData := Some(PhotoData(uri, Some(f), now))), false), [])
    case FixFailed =>
      Transition(s, [LocationFailedAlert])
  }

  /** The camera component's `onCancel`. */
  function CancelCamera(s: ScreenState): (r: ScreenState)
    ensures !r.showCamera && r.photoData == s.photoData && r.location == s.location
  {
    SetShowCamera(s, false)
  }

  /** `retakePhoto`: the report is discarded and the camera shown again. */
  function RetakePhoto(s: ScreenState): (r: ScreenState)
    ensures r.photoData == None && r.showCamera && r.location == s.location
    ensures !s.showCamera ==> r.cameraLaunchPending
  {
    SetShowCamera(s.(photoData := None), true)
  }

  // ---------------------------------------------------------------------
  // The email.
  // ---------------------------------------------------------------------

  const Recipient := "ParkingEnforcement@dublincity.ie"
  const Subject := "Parking Infringement Report"
  const NoLocationText := "Location not available"
  const BodyOpening := "Parking Infringement Report\n\nDate: "
  const BodyLocationLabel := "\nLocation: "
  const BodyClosing := "\n\nPlease find attached photo evidence of the parking violation.\n\nThis report was submitted via the AhHere app."

  /** The body's location line: "lat, lng", or the not-available marker. */
  function LocationText(location: Option<Fix>): (r: string)
    ensures location.Some? ==> r == location.value.latitude.text + ", " + location.value.longitude.text
    ensures location.None? ==> r == NoLocationText
  {
    match location
    case Some(f) => f.latitude.text + ", " + f.longitude.text
    case None => NoLocationText
  }

  /** The body as the template literal writes it: it opens with a line break
      and closes with a line break and the closing backtick's indentation. */
  function BodyTemplate(p: PhotoData): string {
    "\n" + (BodyOpening + p.timestamp.localeText + BodyLocationLabel + LocationText(p.location) + BodyClosing) + "\n    "
  }

  /** The email body: the template with its framing whitespace trimmed and
      nothing else, whatever the date and location texts are. */
  function EmailBody(p: PhotoData): (r: string)
    ensures r == BodyOpening + p.timestamp.localeText + BodyLocationLabel + LocationText(p.location) + BodyClosing
    ensures Strings.IsInfix(LocationText(p.location), r)
  {
    assert BodyOpening[0] == 'P' && BodyClosing[|BodyClosing| - 1] == '.';
    TrimmedTemplate(BodyOpening, p.timestamp.localeText, BodyLocationLabel, LocationText(p.location), BodyClosing);
    Strings.Trim(BodyTemplate(p))
  }

  /** Trimming the template literal's framing keeps its text whole, so the
      location line survives. */
  lemma TrimmedTemplate(opening: string, date: string, locationLabel: string, location: string, closing: string)
    requires |opening| > 0 && !Strings.IsJsWhitespace(opening[0])
    requires |closing| > 0 && !Strings.IsJsWhitespace(closing[|closing| - 1])
    ensures Strings.Trim("\n" + (opening + date + locationLabel + location + closing) + "\n    ")
         == opening + date + locationLabel + location + closing
    ensures Strings.IsInfix(location, opening + date + locationLabel + location + closing)
  {
    var core := opening + date + locationLabel + location + closing;
    assert core[0] == opening[0] && core[|core| - 1] == closing[|closing| - 1];
    TrimmedFraming(core);
    Strings.InfixOfConcat(opening + date + locationLabel, location, closing);
  }

  /** The template literal opens with a line break and closes with a line
      break and four spaces of indentation; trim removes exactly those. */
  lemma TrimmedFraming(core: string)
    requires |core| > 0 && !Strings.IsJsWhitespace(core[0]) && !Strings.IsJsWhitespace(core[|core| - 1])
    ensures Strings.Trim("\n" + core + "\n    ") == core
  {
    Strings.TrimFramed("\n", core, "\n    ");
  }

  const MailtoPrefix := "mailto:" + Recipient + "?"

  /** The `mailto:` URL. It is addressed to the enforcement mailbox, and a
      mail client splitting its query on `&` and `=` and percent-decoding
      each part (section 2 of RFC 6068) recovers exactly the subject and the
      body, in that order. */
  function MailtoUrl(p: PhotoData): (r: string)
    ensures MailtoPrefix <= r
    ensures PercentEncoding.ParseQuery(r[|MailtoPrefix|..], false) == Some([("subject", Subject), ("body", EmailBody(p))])
  {
    var query := MailtoQuery(Subject, EmailBody(p));
    PrefixedQuery(MailtoPrefix, query);
    MailtoPrefix + query
  }

  lemma PrefixedQuery(prefix: string, query: string)
    ensures prefix <= prefix + query && (prefix + query)[|prefix|..] == query
  {
  }

  /** The query of the mail URL: the literal parameter names with the
      `encodeURIComponent`-encoded subject and body. */
  function MailtoQuery(subject: string, body: string): (q: string)
    ensures PercentEncoding.ParseQuery(q, false) == Some([("subject", subject), ("body", body)])
  {
    var q := "subject" + "=" + PercentEncoding.EncodeUriComponent(subject) + "&" + "body" + "=" + PercentEncoding.EncodeUriComponent(body);
    assert "subject" == ['s', 'u', 'b', 'j', 'e', 'c', 't'] && "body" == ['b', 'o', 'd', 'y'];
    TwoPairQuery("subject", subject, "body", body);
    PercentEncoding.QueryRoundTrip(PercentEncoding.UriComponent, [("subject", subject), ("body", body)]);
    q
  }

  /** A query written out by hand as `n1=v1&n2=v2`, with lower-case names
      and encodeURIComponent-encoded values, is the serialization of the two
      pairs. */
  lemma TwoPairQuery(n1: string, v1: string, n2: string, v2: string)
    requires IsLowerName(n1) && IsLowerName(n2)
    ensures n1 + "=" + PercentEncoding.EncodeUriComponent(v1) + "&" + n2 + "=" + PercentEncoding.EncodeUriComponent(v2)
         == PercentEncoding.SerializeQuery(PercentEncoding.UriComponent, [(n1, v1), (n2, v2)])
  {
    var U := PercentEncoding.UriComponent;
    LowerNameUnchanged(n1);
    LowerNameUnchanged(n2);
    PercentEncoding.SerializeTwo(U, (n1, v1), (n2, v2));
    assert "&" == ['&'] && "=" == ['='];
  }

  predicate IsLowerName(name: string) {
    forall i :: 0 <= i < |name| ==> 'a' <= name[i] <= 'z'
  }

  /** Encoding leaves a name of lower-case letters as it is. */
  lemma LowerNameUnchanged(name: string)
    requires IsLowerName(name)
    ensures PercentEncoding.EncodeUriComponent(name) == name
  {
    PercentEncoding.EncodeKeepsSafe(PercentEncoding.UriComponent, name);
  }

  /** `sendEmail`. Nothing happens without a photo; otherwise the mail URL is
      opened when the platform can open it, and an error alert is shown in its
      place when it cannot. */
  function SendEmail(photo: Option<PhotoData>, supported: Option<bool>): (effects: seq<Effect>)
    ensures photo.None? || supported.None? ==> effects == []
    ensures photo.Some? && supported.Some? ==> |effects| == 1
    ensures photo.Some? && supported.Some? ==> (effects[0].OpenUrl? <==> supported.value)
    ensures photo.Some? && supported == Some(true) ==> effects[0] == OpenUrl(MailtoUrl(photo.value))
    ensures photo.Some? && supported == Some(false) ==> effects[0] == MailUnavailableAlert
  {
    match photo
    case None => []
    case Some(p) =>
      var url := MailtoUrl(p);
      match supported
      case None => []
      case Some(true) => [OpenUrl(url)]
      case Some(false) => [MailUnavailableAlert]
  }

  // ---------------------------------------------------------------------
  // What the screen shows.
  // ---------------------------------------------------------------------

  datatype Action = OpenCameraAction | RetakeAction | SendAction

  /** The location block of the photo card: the coordinates to six
      decimals, the capture time, and a map of the fix. */
  datatype LocationDetails = LocationDetails(latitude: string, longitude: string, timestamp: string, mapCentre: Fix)

  datatype Card = ReadyToReport | PhotoCaptured(uri: string, details: Option<LocationDetails>)

  datatype View = CameraView | ReportView(card: Card, actions: set<Action>)

  /** The render function: the camera component while `showCamera`, else the
      report view, whose card and buttons depend only on whether there is a
      photo. */
  function Render(s: ScreenState): (v: View)
    ensures v.CameraView? <==> s.showCamera
    ensures v.ReportView? ==>
      && (SendAction in v.actions <==> s.photoData.Some?)
      && (RetakeAction in v.actions <==> s.photoData.Some?)
      && (OpenCameraAction in v.actions <==> s.photoData.None?)
    ensures v.ReportView? ==> (v.card.PhotoCaptured? <==> s.photoData.Some?)
    ensures v.ReportView? && v.card.PhotoCaptured? ==>
      && v.card.uri == s.photoData.value.uri
      && (v.card.details.Some? <==> s.photoData.value.location.Some?)
  {
    if s.showCamera then CameraView
    else
      match s.photoData
      case None => ReportView(ReadyToReport, {OpenCameraAction})
      case Some(p) =>
        var details := match p.location
          case None => None
          case Some(f) => Some(LocationDetails(f.latitude.fixed6, f.longitude.fixed6, p.timestamp.localeText, f));
        ReportView(PhotoCaptured(p.uri, details), {RetakeAction, SendAction})
  }

  predicate Offers(s: ScreenState, a: Action) {
    Render(s).ReportView? && a in Render(s).actions
  }

  /** Which events can happen: a button press needs its button on screen, and
      an asynchronous result needs its request outstanding. */
  predicate Enabled(s: ScreenState, e: Event) {
    match e
    case MountLocationResolved(_, _) => s.locationRequestPending
    case OpenCameraPressed => Offers(s, OpenCameraAction)
    case CameraFinished(_, _, _, _) => s.cameraLaunchPending
    case RetakePressed => Offers(s, RetakeAction)
    case SendPressed(_) => Offers(s, SendAction)
  }

  /** The screen's reaction to one event. Only the mount-time result
      touches the cached fix; only a finished camera run or a retake changes
      the report; only those two can show or hide the camera besides Open
      Camera; and effects come only from a camera run or a Send press. */
  function Step(s: ScreenState, e: Event): (t: Transition)
    ensures !e.MountLocationResolved? ==> t.next.location == s.location && t.next.locationRequestPending == s.locationRequestPending
    ensures e.MountLocationResolved? ==> !t.next.locationRequestPending
    ensures e.MountLocationResolved? ==>
      t.next.location == (if e.status == Granted && e.initialFix.Some? then e.initialFix else s.location)
    ensures t.next.photoData != s.photoData ==> e.CameraFinished? || e.RetakePressed?
    ensures t.next.showCamera != s.showCamera ==> e.CameraFinished? || e.RetakePressed? || e.OpenCameraPressed?
    ensures |t.effects| > 0 ==> e.CameraFinished? || e.SendPressed?
  {
    match e
    case MountLocationResolved(status, fix) =>
      var s' := s.(locationRequestPending := false);
      if status == Granted && fix.Some? then Transition(s'.(location := fix), [])
      else Transition(s', [])
    case OpenCameraPressed =>
      Transition(OpenCamera(s), [])
    case CameraFinished(permission, choice, launch, fix) =>
      var run := Camera.OpenCamera(permission, choice, launch);
      var s' := s.(cameraLaunchPending := false);
      (match run.callback
       case NoCallback => Transition(s', run.effects)
       case Cancelled => Transition(CancelCamera(s'), run.effects)
       case PhotoTaken(uri) =>
         var t := HandlePhotoTaken(s', uri, fix);
         Transition(t.next, run.effects + t.effects))
    case RetakePressed =>
      Transition(RetakePhoto(s), [])
    case SendPressed(supported) =>
      Transition(s, SendEmail(s.photoData, supported))
  }

  /** Every event is enabled in the state the previous one left. */
  predicate ValidTrace(s: ScreenState, events: seq<Event>)
    decreases |events|
  {
    |events| == 0 || (Enabled(s, events[0]) && ValidTrace(Step(s, events[0]).next, events[1..]))
  }

  function Final(s: ScreenState, events: seq<Event>): ScreenState
    decreases |events|
  {
    if |events| == 0 then s else Final(Step(s, events[0]).next, events[1..])
  }

  // ---------------------------------------------------------------------
  // Properties of the workflow.
  // ---------------------------------------------------------------------

  /** The invariant of every reachable state: a camera launch is outstanding
      only while the camera view is shown, the camera view is never shown
      over a report, and every report carries a fix. */
  predicate Inv(s: ScreenState) {
    && (s.cameraLaunchPending ==> s.showCamera)
    && (s.showCamera ==> s.photoData.None?)
    && (s.photoData.Some? ==> s.photoData.value.location.Some?)
  }

  lemma StepPreservesInv(s: ScreenState, e: Event)
    requires Inv(s) && Enabled(s, e)
    ensures Inv(Step(s, e).next)
  {
  }

  lemma {:induction false} TracePreservesInv(s: ScreenState, events: seq<Event>)
    requires Inv(s) && ValidTrace(s, events)
    ensures Inv(Final(s, events))
    decreases |events|
  {
    if |events| > 0 {
      StepPreservesInv(s, events[0]);
      TracePreservesInv(Step(s, events[0]).next, events[1..]);
    }
  }

  /** In every reachable state a report has the fix fetched after its photo,
      so the email's location line always gives coordinates: the "Location
      not available" branch of `sendEmail` is never taken. */
  lemma ReachableReportsHaveLocation(events: seq<Event>)
    requires ValidTrace(Initial, events)
    ensures Final(Initial, events).photoData.Some? ==>
      var p := Final(Initial, events).photoData.value;
      p.location.Some? && LocationText(p.location) == p.location.value.latitude.text + ", " + p.location.value.longitude.text
    ensures Final(Initial, events).showCamera ==> Final(Initial, events).photoData.None?
  {
    TracePreservesInv(Initial, events);
  }

  /** The location fetched at mount never reaches a report, the screen or an
      email: replacing it changes nothing but itself. */
  lemma MountLocationNeverRead(s: ScreenState, e: Event, other: Option<Fix>)
    requires !e.MountLocationResolved?
    ensures Step(s.(location := other), e) == Transition(Step(s, e).next.(location := other), Step(s, e).effects)
    ensures Render(s.(location := other)) == Render(s)
    ensures Enabled(s.(location := other), e) == Enabled(s, e)
  {
    StepIgnoresMountFix(s, e, other);
    ViewIgnoresMountFix(s, e, other);
  }

  lemma StepIgnoresMountFix(s: ScreenState, e: Event, other: Option<Fix>)
    requires !e.MountLocationResolved?
    ensures Step(s.(location := other), e) == Transition(Step(s, e).next.(location := other), Step(s, e).effects)
  {
    match e
    case CameraFinished(permission, choice, launch, fix) =>
      var run := Camera.OpenCamera(permission, choice, launch);
      if run.callback.PhotoTaken? {
        var t := HandlePhotoTaken(s.(cameraLaunchPending := false), run.callback.uri, fix);
        var t' := HandlePhotoTaken(s.(location := other).(cameraLaunchPending := false), run.callback.uri, fix);
        assert t' == Transition(t.next.(location := other), t.effects);
      }
    case _ =>
  }

  lemma ViewIgnoresMountFix(s: ScreenState, e: Event, other: Option<Fix>)
    ensures Render(s.(location := other)) == Render(s)
    ensures Enabled(s.(location := other), e) == Enabled(s, e)
  {
  }

  /** The camera component launches the camera once per mount: a launch
      becomes outstanding only when the camera view appears, and a finished
      run leaves none outstanding. */
  lemma LaunchOncePerMount(s: ScreenState, e: Event)
    ensures !s.cameraLaunchPending && Step(s, e).next.cameraLaunchPending ==>
      !s.showCamera && Step(s, e).next.showCamera
    ensures e.CameraFinished? ==> !Step(s, e).next.cameraLaunchPending
  {
  }

  /** A camera view whose one launch is spent: nothing the user can press,
      nothing left to deliver a photo. */
  predicate CameraStranded(s: ScreenState) {
    s.showCamera && !s.cameraLaunchPending
  }

  /** When camera permission is refused and the user picks "Open Settings",
      no callback fires: the camera view stays up, its launch spent, while the
      settings are opened. */
  lemma SettingsStrandsCamera(s: ScreenState, e: Event)
    requires Inv(s) && Enabled(s, e)
    requires e.CameraFinished? && e.permission.PermissionResolved? && e.permission.status != Granted
    requires e.choice == Camera.OpenSettingsChosen
    ensures CameraStranded(Step(s, e).next)
    ensures Step(s, e).next.photoData == s.photoData == None
    ensures Step(s, e).effects == [Camera.PermissionAlert, OpenSettings]
  {
  }

  /** When the location fetch after a photo fails, the photo is dropped and
      the camera view stays up, its launch already spent. */
  lemma FailedFixStrandsCamera(s: ScreenState, e: Event)
    requires Inv(s) && Enabled(s, e)
    requires e.CameraFinished? && e.fix.FixFailed?
    requires Camera.OpenCamera(e.permission, e.choice, e.launch).callback.PhotoTaken?
    ensures CameraStranded(Step(s, e).next)
    ensures Step(s, e).next.photoData == s.photoData == None
    ensures Step(s, e).effects == [LocationFailedAlert]
  {
  }

  /** A stranded camera view can only see the mount-time location request
      resolve, and stays stranded: only leaving the screen recovers it. */
  lemma StrandedStaysStranded(s: ScreenState, e: Event)
    requires CameraStranded(s) && Enabled(s, e)
    ensures e.MountLocationResolved?
    ensures CameraStranded(Step(s, e).next)
  {
  }

  /** The Send button is offered exactly when there is a report, and
      pressing it then leaves the state alone and produces at most one effect:
      exactly one when `canOpenURL` resolves, none when it rejects. */
  lemma SendOnlyWithReport(s: ScreenState, supported: Option<bool>)
    ensures Enabled(s, SendPressed(supported)) <==> !s.showCamera && s.photoData.Some?
    ensures Enabled(s, SendPressed(supported)) ==>
      && Step(s, SendPressed(supported)).next == s
      && |Step(s, SendPressed(supported)).effects| == (if supported.Some? then 1 else 0)
  {
  }
}
