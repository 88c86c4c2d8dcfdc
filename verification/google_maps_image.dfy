/** The static map shown under a captured photo (components/GoogleMapsImage.tsx).
    The component keeps two flags: `useFallback`, raised once the Google image
    fails to load, and `imageError`, which tracks the last load outcome. Each
    render picks the displayed URL from the key and `useFallback`.

    The component also defines `handleMapPress`, but attaches it to nothing:
    the image takes only its error and load handlers, and no caller wraps the
    map in a pressable. OnMapPress models that function as written; a tap on
    the map has no effect, even though the note under a Google image invites
    one. */
module GoogleMapsImage {
  import opened Platform
  import opened MapsConfig
  import Strings

  datatype ImageState = ImageState(useFallback: bool, imageError: bool)

  /** Both flags start false. */
  const Initial := ImageState(false, false)

  /** The condition under which the Google image is displayed. */
  predicate ShowsPrimary(key: string, st: ImageState) {
    HasGoogleMapsApiKey(key) && !st.useFallback
  }

  /** The URL handed to the image on each render: `getMapUrl` exactly when the
      Google image is meant to show, `getFallbackMapUrl` otherwise. */
  function DisplayedUrl(key: string, latitude: Coordinate, longitude: Coordinate, st: ImageState): (r: string)
    ensures r == MapUrl(key, latitude, longitude) <==> ShowsPrimary(key, st)
    ensures r == FallbackMapUrl(latitude, longitude) <==> !ShowsPrimary(key, st)
  {
    FallbackDiffersFromMapUrl(key, latitude, longitude);
    if HasGoogleMapsApiKey(key) && !st.useFallback then MapUrl(key, latitude, longitude)
    else FallbackMapUrl(latitude, longitude)
  }

  /** `handleImageError`: records the error, and switches to the fallback only
      while the Google image is the one shown. */
  function OnImageError(key: string, st: ImageState): (r: ImageState)
    ensures r.imageError
    ensures r.useFallback <==> st.useFallback || HasGoogleMapsApiKey(key)
    ensures !ShowsPrimary(key, r)
  {
    var st' := st.(imageError := true);
    if HasGoogleMapsApiKey(key) && !st.useFallback then st'.(useFallback := true) else st'
  }

  /** `handleImageLoad`: clears the error flag and nothing else. */
  function OnImageLoad(st: ImageState): (r: ImageState)
    ensures !r.imageError && r.useFallback == st.useFallback
  {
    st.(imageError := false)
  }

  datatype Provider = GoogleMaps | OpenStreetMap

  /** What `handleMapPress` computes: a map provider, the link it would open
      (built and then unused), and an alert showing the coordinates to six
      decimals. */
  datatype MapPress = MapPress(provider: Provider, link: string, alert: Effect)

  function ProviderName(p: Provider): string {
    match p
    case GoogleMaps => "Google Maps"
    case OpenStreetMap => "OpenStreetMap"
  }

  /** `handleMapPress`: Google Maps is named under exactly the condition that
      displays the Google image (see DisplayedUrl). The alert shows both
      coordinates to six decimals and names that provider; the link points at
      the same provider and carries the full-precision coordinates. */
  function OnMapPress(key: string, latitude: Coordinate, longitude: Coordinate, st: ImageState): (r: MapPress)
    ensures r.provider == GoogleMaps <==> ShowsPrimary(key, st)
    ensures r.alert.ShowAlert? && r.alert.title == "Location"
    ensures r.alert.message == "Coordinates: " + latitude.fixed6 + ", " + longitude.fixed6 + ("\n\nTap to open in " + ProviderName(r.provider))
    ensures Strings.IsInfix(latitude.fixed6, r.alert.message) && Strings.IsInfix(longitude.fixed6, r.alert.message)
    ensures r.provider == GoogleMaps ==> r.link == "https://www.google.com/maps?q=" + latitude.text + "," + longitude.text
    ensures r.provider == OpenStreetMap ==>
      r.link == "https://www.openstreetmap.org/?mlat=" + latitude.text + "&mlon=" + longitude.text + "&zoom=18"
  {
    var provider := if HasGoogleMapsApiKey(key) && !st.useFallback then GoogleMaps else OpenStreetMap;
    var link := match provider
      case GoogleMaps => "https://www.google.com/maps?q=" + latitude.text + "," + longitude.text
      case OpenStreetMap => "https://www.openstreetmap.org/?mlat=" + latitude.text + "&mlon=" + longitude.text + "&zoom=18";
    var message := "Coordinates: " + latitude.fixed6 + ", " + longitude.fixed6 + ("\n\nTap to open in " + ProviderName(provider));
    Strings.InfixOfTemplate("Coordinates: ", latitude.fixed6, ", ", longitude.fixed6, "\n\nTap to open in " + ProviderName(provider));
    MapPress(provider, link, ShowAlert("Location", message))
  }

  /** The alert of `handleMapPress` names the provider it chose: Google Maps while the
      Google image shows, OpenStreetMap otherwise. */
  lemma AlertNamesProvider(key: string, latitude: Coordinate, longitude: Coordinate, st: ImageState)
    ensures ShowsPrimary(key, st) ==> Strings.IsInfix("Google Maps", OnMapPress(key, latitude, longitude, st).alert.message)
    ensures !ShowsPrimary(key, st) ==> Strings.IsInfix("OpenStreetMap", OnMapPress(key, latitude, longitude, st).alert.message)
  {
    var r := OnMapPress(key, latitude, longitude, st);
    var lead := "Coordinates: " + latitude.fixed6 + ", " + longitude.fixed6 + "\n\nTap to open in ";
    Strings.InfixOfConcat(lead, ProviderName(r.provider), "");
    assert r.alert.message == lead + ProviderName(r.provider) + "";
  }

  const FallbackNote := "Using fallback map (Google Maps API needs to be enabled)"
  const GoogleNote := "Tap map to open in Google Maps"
  const MissingKeyNote := "Add Google Maps API key for real satellite imagery"

  /** The note under the coordinates. */
  function CoordinatesNote(key: string, st: ImageState): (r: string)
    ensures r == FallbackNote <==> st.useFallback
    ensures r == GoogleNote <==> ShowsPrimary(key, st)
    ensures r == MissingKeyNote <==> !st.useFallback && !HasGoogleMapsApiKey(key)
  {
    if st.useFallback then FallbackNote
    else if HasGoogleMapsApiKey(key) then GoogleNote
    else MissingKeyNote
  }

  /** The events the component reacts to: the image's `onError` and `onLoad`. */
  datatype ImageEvent = ImageError | ImageLoaded

  function Step(key: string, st: ImageState, e: ImageEvent): ImageState {
    match e
    case ImageError => OnImageError(key, st)
    case ImageLoaded => OnImageLoad(st)
  }

  /** The state after a sequence of events, applied in order. */
  function Run(key: string, st: ImageState, events: seq<ImageEvent>): ImageState
    decreases |events|
  {
    if |events| == 0 then st else Run(key, Step(key, st, events[0]), events[1..])
  }

  /** A second error changes nothing: the error handler is idempotent. */
  lemma ErrorIdempotent(key: string, st: ImageState)
    ensures OnImageError(key, OnImageError(key, st)) == OnImageError(key, st)
  {
  }

  /** After any events, the fallback is in use exactly when it already was or
      an error arrived while a key is configured. */
  lemma {:induction false} RunUsesFallback(key: string, st: ImageState, events: seq<ImageEvent>)
    ensures Run(key, st, events).useFallback
        <==> st.useFallback || (HasGoogleMapsApiKey(key) && ImageError in events)
    decreases |events|
  {
    if |events| > 0 {
      RunUsesFallback(key, Step(key, st, events[0]), events[1..]);
      assert events == [events[0]] + events[1..];
    }
  }

  /** `useFallback` never goes back to false. */
  lemma FallbackIsPermanent(key: string, st: ImageState, events: seq<ImageEvent>)
    requires st.useFallback
    ensures Run(key, st, events).useFallback
  {
    RunUsesFallback(key, st, events);
  }

  /** From mount, the Google image is displayed exactly while a key is
      configured and no load error has occurred. */
  lemma PrimaryUntilFirstError(key: string, latitude: Coordinate, longitude: Coordinate, events: seq<ImageEvent>)
    ensures DisplayedUrl(key, latitude, longitude, Run(key, Initial, events)) == MapUrl(key, latitude, longitude)
        <==> HasGoogleMapsApiKey(key) && ImageError !in events
  {
    RunUsesFallback(key, Initial, events);
  }

  /** Without a key the flag never moves, and the fallback image is shown from
      the first render on. */
  lemma NoKeyAlwaysFallback(key: string, latitude: Coordinate, longitude: Coordinate, events: seq<ImageEvent>)
    requires !HasGoogleMapsApiKey(key)
    ensures !Run(key, Initial, events).useFallback
    ensures DisplayedUrl(key, latitude, longitude, Run(key, Initial, events)) == FallbackMapUrl(latitude, longitude)
  {
    RunUsesFallback(key, Initial, events);
  }

  /** `imageError` has no say in which URL is displayed. */
  lemma ErrorFlagIrrelevant(key: string, latitude: Coordinate, longitude: Coordinate, st: ImageState, flag: bool)
    ensures DisplayedUrl(key, latitude, longitude, st.(imageError := flag)) == DisplayedUrl(key, latitude, longitude, st)
  {
  }

  /** Applying one more event after a run is one more step. */
  lemma {:induction false} RunSnoc(key: string, st: ImageState, events: seq<ImageEvent>, e: ImageEvent)
    ensures Run(key, st, events + [e]) == Step(key, Run(key, st, events), e)
    decreases |events|
  {
    if |events| > 0 {
      assert (events + [e])[1..] == events[1..] + [e];
      RunSnoc(key, Step(key, st, events[0]), events[1..], e);
    }
  }

  /** After any events, `imageError` keeps its initial value if there were
      none, and otherwise is true exactly when the last event is an error. */
  lemma RunErrorFlag(key: string, st: ImageState, events: seq<ImageEvent>)
    ensures |events| == 0 ==> Run(key, st, events).imageError == st.imageError
    ensures |events| > 0 ==> (Run(key, st, events).imageError <==> events[|events| - 1] == ImageError)
  {
    if |events| > 0 {
      var n := |events|;
      assert events == events[..n - 1] + [events[n - 1]];
      RunSnoc(key, st, events[..n - 1], events[n - 1]);
    }
  }
}
