# AhHere report workflow in Dafny

AhHere is a small React Native app. The user photographs a parking violation. The app attaches a GPS fix, previews the photo with a static map, and hands a prefilled email to the device's mail app, addressed to Dublin City Council's parking enforcement mailbox. This project models the app's logic as pure functions over immutable records, in five modules that follow the source files.

- `ReportScreen` (app/report.tsx) is the screen's state machine. Its state is `showCamera`, `photoData` and the fix cached at mount. Two flags record outstanding asynchronous work: the mount-time location request, and the one launch that the mounted camera component performs. The events are:
  - the mount-time location result;
  - the Open Camera, Retake and Send presses;
  - the end of the camera component's run, which carries the platform's answers to the permission request, to the camera, and to the location fetch that follows a photo.

  `Step` applies the handlers as written. `Enabled` says which events the rendered screen allows. Lemmas over traces cover the invariants and a consequence of the code as written. When the location fetch after a photo fails, the camera view stays up but its single launch is already spent. Nothing on the screen can then move it again: the state is "stranded" (`FailedFixStrandsCamera`, `StrandedStaysStranded`). A refused camera permission followed by "Open Settings" strands it the same way, because the camera component then calls neither callback (`SettingsStrandsCamera`).
- `ImagePickerCamera` (components/ImagePickerCamera.tsx) maps the permission answer, the alert button and the picker result to the launch options, the alerts and at most one callback.
- `MapsConfig` (config/maps.ts) covers the API-key check, the Google Static Maps request, and the two via.placeholder.com images. The Static Maps query is serialized with the `application/x-www-form-urlencoded` serializer of section 5.2 of the WHATWG URL Standard. It is proved to parse back, by that standard's section 5.1 parser, to exactly the six parameters in order.
- `GoogleMapsImage` (components/GoogleMapsImage.tsx) holds the `useFallback`/`imageError` flags, the displayed URL, the error and load handlers, `handleMapPress`, and the note text.
- `ThemeColor` (hooks/useThemeColor.ts) covers theme resolution, override precedence, and the surface and semantic helpers. The colour table of constants/Colors.ts is a parameter.

Five support modules have no source file of their own:
- `Wrappers` holds the `Option` type used for absent values and for results that can fail.
- `Platform` holds the values the platform supplies or is asked for: permission statuses, coordinates, timestamps and the `Effect`s (an alert, opening the settings, opening a URL).
- `Utf8` implements UTF-8 encoding and strict decoding.
- `PercentEncoding` implements the two percent-encoders the app uses: `URLSearchParams` and `encodeURIComponent` (section 19.2.6.5 of ECMA-262). It also has their reference decoders.
- `Strings` implements `String.prototype.trim` (ECMA-262 WhiteSpace and LineTerminator), splitting, joining and containment.

The two URL builders are Dafny functions of the key and the coordinates, so their determinism holds by construction. `getFallbackMapUrl` has no key parameter at all.

Platform values are opaque:
- a coordinate is the pair of its `String(n)` and `n.toFixed(6)` renderings;
- a `Date` is its `toLocaleString()` text;
- the Google API key is an input string, because the secrets module is not part of this model.

Three consequences of the code as written:
- A failed location fetch after a capture creates no report. There is no report with an absent location: the handler shows an alert and changes no state (app/report.tsx:52-54). As a consequence, every reachable report carries a fix (`ReachableReportsHaveLocation`). The "Location not available" line of the email is never produced in practice.
- `handleMapPress` is never attached: the map image takes only `onError` and `onLoad` (components/GoogleMapsImage.tsx:72-78), and the report screen does not wrap the map in anything pressable (app/report.tsx:155-159). A tap on the map does nothing, although the note under a Google image reads "Tap map to open in Google Maps". `OnMapPress` models the function as written; even if it were called, it would only show an alert, and the Google or OpenStreetMap link it builds is discarded.
- `canOpenURL` has no rejection handler. When its promise rejects, Send opens nothing and shows no alert (app/report.tsx:79-85).

## Model

| member | source | states |
|---|---|---|
| ReportScreen.OpenCamera | app/report.tsx:36-38 | opening the camera shows the camera view and keeps the report and cached fix; a hidden camera view is mounted afresh, so its launch becomes outstanding |
| ReportScreen.HandlePhotoTaken | app/report.tsx:40-55 | with a fresh fix the report is exactly the given URI, that fix and the handler's time, and the camera closes; on a failed fetch the only consequence is the location alert: no report, state unchanged, camera view kept |
| ReportScreen.CancelCamera | app/report.tsx:91-94 | cancelling hides the camera and leaves the report untouched |
| ReportScreen.RetakePhoto | app/report.tsx:57-60 | retaking discards the report and shows the camera again |
| ReportScreen.LocationText | app/report.tsx:70 | the location line is the two coordinates joined by ", " with a fix, and "Location not available" without one |
| ReportScreen.EmailBody | app/report.tsx:66-75 | trimming the template removes exactly its framing line break and indentation, whatever the date and location texts are; the location line is in the body |
| ReportScreen.MailtoUrl | app/report.tsx:77 | the mail URL is addressed to ParkingEnforcement@dublincity.ie, and decoding its query gives back exactly the fixed subject and the body, in that order |
| ReportScreen.MailtoQuery | app/report.tsx:77 | the `subject=…&body=…` query built with encodeURIComponent parses back to the two pairs |
| ReportScreen.SendEmail | app/report.tsx:62-86 | sending without a photo does nothing; with one, the mail URL is opened exactly when `canOpenURL` resolves true, the error alert is raised when it resolves false, and nothing happens when it rejects |
| ReportScreen.Render | app/report.tsx:88-196 | the camera view shows exactly while `showCamera`; Send and Retake are offered exactly when there is a report, Open Camera exactly when there is none; the location block appears exactly when the report has a fix |
| ReportScreen.Step | app/report.tsx:22-96 | only the mount-time result touches the cached fix, storing it exactly when permission was granted and a fix arrived; only a camera run or a retake changes the report; only those and Open Camera show or hide the camera; effects come only from a camera run or a Send press |
| ReportScreen.StepPreservesInv | app/report.tsx:36-96 | every enabled event keeps the invariant: a launch is outstanding only under the camera view, the camera view never covers a report, and every report has a fix |
| ReportScreen.TracePreservesInv | app/report.tsx:36-96 | the invariant holds after every sequence of enabled events |
| ReportScreen.ReachableReportsHaveLocation | app/report.tsx:40-70 | in every reachable state a report carries the fix fetched after its photo, so the email's location line gives coordinates |
| ReportScreen.MountLocationNeverRead | app/report.tsx:22-34 | the fix cached at mount never affects a transition, an effect, the view or which events are enabled |
| ReportScreen.LaunchOncePerMount | components/ImagePickerCamera.tsx:11-14 | a camera launch becomes outstanding only when the camera view appears, and a finished run leaves none outstanding |
| ReportScreen.FailedFixStrandsCamera | app/report.tsx:52-54 | a failed fetch after a photo leaves the camera view up with its launch spent, no report, and the location alert as the only effect |
| ReportScreen.SettingsStrandsCamera | components/ImagePickerCamera.tsx:20-35 | a refused permission answered with "Open Settings" fires no callback, so the camera view stays up with its launch spent and no report, while the permission alert and the settings request are the effects |
| ReportScreen.StrandedStaysStranded | app/report.tsx:89-96 | from a stranded camera view only the mount-time location result can arrive, and the view stays stranded |
| ReportScreen.SendOnlyWithReport | app/report.tsx:169-194 | Send is enabled exactly when a report is shown; pressing it leaves the state unchanged and has one effect when `canOpenURL` resolves and none when it rejects |
| ImagePickerCamera.OpenCamera | components/ImagePickerCamera.tsx:16-57 | the camera is launched, always with images, no editing, aspect 4:3 and quality 0.8, exactly when permission is granted; onPhotoTaken fires exactly for an uncancelled result with an asset, with the first asset's URI; no callback fires only for refused permission plus "Open Settings"; a rejected request or launch gives the error alert; a refused permission shows the "Camera Permission Required" alert and, when "Open Settings" is pressed, asks for the settings; a launch that resolves shows no alert |
| ImagePickerCamera.GrantedCallsExactlyOne | components/ImagePickerCamera.tsx:46-52 | once permission is granted exactly one of onPhotoTaken and onCancel fires |
| ImagePickerCamera.RefusedNeverPhotographs | components/ImagePickerCamera.tsx:19-36 | with refused permission the camera is not launched, onPhotoTaken never fires, and onCancel fires exactly when "Cancel" is pressed |
| MapsConfig.HasGoogleMapsApiKey | config/maps.ts:21-25 | a key is usable exactly when it is neither empty nor "YOUR_API_KEY_HERE" |
| MapsConfig.PlaceholderUrl | config/maps.ts:32-36 | the placeholder is a via.placeholder.com address with the blue 1a73e8 colour, is not a Static Maps request, and names both coordinates to six decimals |
| MapsConfig.UnusableKeys | config/maps.ts:21-37 | the empty key and the "YOUR_API_KEY_HERE" placeholder are both rejected and give the same placeholder image; a Static Maps request is made exactly for every other key |
| MapsConfig.MapUrl | config/maps.ts:21-53 | with a usable key the URL is a Static Maps request on maps.googleapis.com whose query parses back to center, zoom 18, size 400x300, maptype satellite, scale 2 and the key, in order; without one it is the blue placeholder naming both coordinates, never a Google request |
| MapsConfig.FallbackMapUrl | config/maps.ts:56-69 | the fallback takes no key, is the green placeholder naming both coordinates, and is never a Google request |
| MapsConfig.FallbackDiffersFromMapUrl | config/maps.ts:34-65 | for every key the fallback URL differs from getMapUrl's URL |
| MapsConfig.CentreCommaEncoded | config/maps.ts:41-48 | the comma in the center parameter is serialized as %2C between the two encoded coordinates |
| PercentEncoding.Encode | config/maps.ts:41-50 | encoded components never contain `&`, `=` or `?` |
| PercentEncoding.ComponentRoundTrip | app/report.tsx:77 | decoding a percent-encoded component gives back the original string, for both encoders |
| PercentEncoding.QueryRoundTrip | config/maps.ts:41-50 | parsing a serialized query gives back exactly the pairs in order |
| Utf8.DecodeEncode | config/maps.ts:41-48 | strict UTF-8 decoding inverts the encoding the serializers apply first |
| Strings.TrimFramed | app/report.tsx:66-75 | trim of a text framed by whitespace is the text, when it neither starts nor ends with whitespace |
| GoogleMapsImage.DisplayedUrl | components/GoogleMapsImage.tsx:20-25 | the displayed URL is getMapUrl's exactly when a key is configured and the fallback is not in use, and getFallbackMapUrl's otherwise |
| GoogleMapsImage.OnImageError | components/GoogleMapsImage.tsx:36-45 | an error sets imageError, and afterwards the fallback is in use exactly when it was before or a key is configured, so the Google image is no longer shown |
| GoogleMapsImage.OnImageLoad | components/GoogleMapsImage.tsx:47-50 | a load clears imageError and leaves useFallback |
| GoogleMapsImage.OnMapPress | components/GoogleMapsImage.tsx:52-63 | `handleMapPress` chooses Google Maps exactly under the condition that displays the Google image, and OpenStreetMap otherwise; the "Location" alert reads "Coordinates: lat, lng" to six decimals followed by "Tap to open in" and that provider's name; the link is the chosen provider's URL with the full-precision coordinates |
| GoogleMapsImage.AlertNamesProvider | components/GoogleMapsImage.tsx:53-61 | the alert's text contains "Google Maps" while the Google image shows and "OpenStreetMap" otherwise |
| GoogleMapsImage.CoordinatesNote | components/GoogleMapsImage.tsx:106-113 | the fallback note exactly when useFallback; the Google note exactly when the Google image shows; the add-a-key note exactly when neither a key nor the fallback |
| GoogleMapsImage.ErrorIdempotent | components/GoogleMapsImage.tsx:41-44 | a second error leaves the state as the first left it |
| GoogleMapsImage.RunUsesFallback | components/GoogleMapsImage.tsx:17-50 | after any events the fallback is in use exactly when it was at the start or an error arrived while a key is configured |
| GoogleMapsImage.FallbackIsPermanent | components/GoogleMapsImage.tsx:17-45 | once true, useFallback stays true through any events |
| GoogleMapsImage.PrimaryUntilFirstError | components/GoogleMapsImage.tsx:17-45 | from mount, the Google image shows exactly while a key is configured and no error has occurred |
| GoogleMapsImage.NoKeyAlwaysFallback | components/GoogleMapsImage.tsx:20-45 | without a key useFallback never changes and the fallback image is shown from the first render |
| GoogleMapsImage.ErrorFlagIrrelevant | components/GoogleMapsImage.tsx:25 | imageError has no influence on the displayed URL |
| GoogleMapsImage.RunErrorFlag | components/GoogleMapsImage.tsx:36-50 | after any sequence of error and load events, imageError keeps its initial value when there were none, and otherwise is true exactly when the last one is an error |
| ThemeColor.ResolvedTheme | hooks/useThemeColor.ts:13 | a null or undefined scheme resolves to light |
| ThemeColor.UseThemeColor | hooks/useThemeColor.ts:9-24 | a truthy override for the current theme wins; otherwise the table entry for the requested key; otherwise the theme's background |
| ThemeColor.OtherThemePropIgnored | hooks/useThemeColor.ts:14 | the override for the theme not in use never affects the result |
| ThemeColor.EmptyPropIsAbsent | hooks/useThemeColor.ts:16 | an empty-string override counts as no override |
| ThemeColor.MissingSchemeIsLight | hooks/useThemeColor.ts:13 | without a scheme every lookup is the light theme's |
| ThemeColor.UseSurfaceColor | hooks/useThemeColor.ts:27-30 | the surface helper returns what useThemeColor gives for that key with no overrides |
| ThemeColor.SurfaceDefault | hooks/useThemeColor.ts:27 | called without a variant, the surface helper gives the theme's surface colour |
| ThemeColor.UseSemanticColor | hooks/useThemeColor.ts:33-36 | the semantic helper returns what useThemeColor gives for that key with no overrides |

## Left out

- Platform I/O is left out: expo-location, expo-image-picker, `Alert`, `Linking` and `console.log`. Their answers are event inputs and their requests are `Effect` values. Logging has no effect on any result.
- The `hasPermission` state of the report screen is left out. It is declared and never set or read.
- Async ordering is left out. `handlePhotoTaken` runs un-awaited, and the camera run and the fetch that follows a photo arrive as one event. Interleavings of the mount-time location request with the camera are reduced to one enabled event at any point.
- A synchronous throw from `onPhotoTaken` inside the camera's `try` is not modelled. That would call `onCancel` as well.
- Number and date formatting are not modelled: `String(n)`, `toFixed(6)` and `toLocaleString()` are given as texts.
- The CartoDB tile URL computed in `getFallbackMapUrl` is left out. It uses floating-point trigonometry and is never returned.
- The state of the map component is modelled on its own and not composed into the report screen. It lives with the component instance, which the screen mounts only under a report with a fix.
- The alert's dismissal without a button press is not modelled: a platform-specific Android option the code does not set.
- PercentEncoding.ParseQuery: the section 5.1 parser replaces ill-formed UTF-8 with U+FFFD. This decoder returns None instead. It is used only as the inverse of the serializers, whose output is always well-formed.
- Presentation-only files are left out: app/splash.tsx, the themed text and view components, the material button and card, LocationMap, and SimpleCamera (a timer simulation the report screen does not use). config/test-maps.ts, a console script, is left out. It checks that the generated URL includes `maps.googleapis.com`, which `MapsConfig.MapUrl` states for every usable key.
