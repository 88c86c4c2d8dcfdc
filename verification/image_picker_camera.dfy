/** The camera launcher (components/ImagePickerCamera.tsx). Mounting it runs
    `openCamera` once: ask for camera permission, launch the system camera,
    and report the outcome through exactly one of the two callbacks, or none
    when the user leaves the permission alert through "Open Settings".

    The permission request, the camera and the alert button are the platform's;
    their answers are the inputs of OpenCamera. */
module ImagePickerCamera {
  import opened Wrappers
  import opened Platform

  /** What `requestCameraPermissionsAsync` does: resolve with a status, or reject. */
  datatype PermissionResponse = PermissionResolved(status: PermissionStatus) | PermissionRejected

  /** The button the user presses in the "permission required" alert. */
  datatype AlertChoice = OpenSettingsChosen | CancelChosen

  datatype Asset = Asset(uri: string)

  /** An `ImagePickerResult`: `assets` may be absent. */
  datatype PickerResult = PickerResult(canceled: bool, assets: Option<seq<Asset>>)

  /** What `launchCameraAsync` does: resolve with a result, or reject. */
  datatype LaunchResponse = LaunchResolved(result: PickerResult) | LaunchRejected

  datatype LaunchOptions = LaunchOptions(mediaTypes: string, allowsEditing: bool, aspect: (nat, nat), quality: real)

  /** The options the camera is always launched with. */
  const CameraOptions := LaunchOptions("Images", false, (4, 3), 0.8)

  /** Which callback the launcher calls. */
  datatype Callback = NoCallback | PhotoTaken(uri: string) | Cancelled

  /** Everything one run of `openCamera` does. */
  datatype Outcome = Outcome(launchedWith: Option<LaunchOptions>, effects: seq<Effect>, callback: Callback)

  const PermissionAlert := ShowAlert(
    "Camera Permission Required",
    "Camera permission is required to take photos of parking violations. Please grant camera access in your device settings.")
  const FailureAlert := ShowAlert("Error", "Failed to open camera. Please try again.")

  /** A result the launcher accepts as a photograph. */
  predicate HasPhoto(result: PickerResult) {
    !result.canceled && result.assets.Some? && |result.assets.value| > 0
  }

  predicate PermissionGranted(permission: PermissionResponse) {
    permission == PermissionResolved(Granted)
  }

  /** `openCamera`.
      - The camera is launched, always with CameraOptions, exactly when permission is granted.
      - `onPhotoTaken` is called exactly when, in addition, the camera returns an
        uncancelled result with an asset, and it receives the first asset's URI.
      - `onCancel` is called when the request or the launch rejects (after an
        error alert), when the camera returns no photo, or when the user
        presses "Cancel" in the permission alert.
      - No callback is called only when permission is refused and the user
        chooses "Open Settings". */
  function OpenCamera(permission: PermissionResponse, choice: AlertChoice, launch: LaunchResponse): (r: Outcome)
    ensures r.launchedWith.Some? <==> PermissionGranted(permission)
    ensures r.launchedWith.Some? ==> r.launchedWith.value == CameraOptions
    ensures r.callback.PhotoTaken?
        <==> PermissionGranted(permission) && launch.LaunchResolved? && HasPhoto(launch.result)
    ensures r.callback.PhotoTaken? ==> r.callback.uri == launch.result.assets.value[0].uri
    ensures r.callback == NoCallback
        <==> permission.PermissionResolved? && permission.status != Granted && choice == OpenSettingsChosen
    ensures permission.PermissionRejected? || (PermissionGranted(permission) && launch.LaunchRejected?)
        <==> r.effects == [FailureAlert]
    ensures permission.PermissionResolved? && permission.status != Granted ==>
      r.effects == [PermissionAlert] + (if choice == OpenSettingsChosen then [OpenSettings] else [])
    ensures PermissionGranted(permission) && launch.LaunchResolved? ==> r.effects == []
  {
    match permission
    case PermissionRejected =>
      Outcome(None, [FailureAlert], Cancelled)
    case PermissionResolved(status) =>
      if status != Granted then
        match choice
        case OpenSettingsChosen => Outcome(None, [PermissionAlert, OpenSettings], NoCallback)
        case CancelChosen => Outcome(None, [PermissionAlert], Cancelled)
      else
        match launch
        case LaunchRejected => Outcome(Some(CameraOptions), [FailureAlert], Cancelled)
        case LaunchResolved(result) =>
          if HasPhoto(result) then Outcome(Some(CameraOptions), [], PhotoTaken(result.assets.value[0].uri))
          else Outcome(Some(CameraOptions), [], Cancelled)
  }

  /** Once the camera has been launched, exactly one callback fires. */
  lemma GrantedCallsExactlyOne(choice: AlertChoice, launch: LaunchResponse)
    ensures OpenCamera(PermissionResolved(Granted), choice, launch).callback != NoCallback
    ensures OpenCamera(PermissionResolved(Granted), choice, launch).callback.PhotoTaken?
        != (OpenCamera(PermissionResolved(Granted), choice, launch).callback == Cancelled)
  {
  }

  /** A refused permission never yields a photograph, and the launcher
      cancels exactly when the user presses "Cancel". */
  lemma RefusedNeverPhotographs(status: PermissionStatus, choice: AlertChoice, launch: LaunchResponse)
    requires status != Granted
    ensures !OpenCamera(PermissionResolved(status), choice, launch).callback.PhotoTaken?
    ensures OpenCamera(PermissionResolved(status), choice, launch).callback == Cancelled <==> choice == CancelChosen
    ensures OpenCamera(PermissionResolved(status), choice, launch).launchedWith == None
  {
  }
}
