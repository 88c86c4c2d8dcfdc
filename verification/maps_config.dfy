/** The Google Maps configuration (config/maps.ts): whether an API key is
    configured, the Google Static Maps request for a position, and the two
    placeholder images used when that request cannot be made or fails.

    The key comes from a secrets module that is not part of this model; it is
    a parameter of every function here. */
module MapsConfig {
  import opened Platform
  import opened Strings
  import opened Wrappers
  import PercentEncoding

  /** The value a fresh checkout's secrets file holds instead of a key. */
  const PlaceholderApiKey := "YOUR_API_KEY_HERE"

  const GoogleApisHost := "maps.googleapis.com"
  const StaticMapsUrl := "https://" + GoogleApisHost + "/maps/api/staticmap"

  /** The request settings, as the strings `toString()` makes of them. */
  const DefaultZoom := "18"
  const DefaultSize := "400x300"
  const DefaultScale := "2"
  const DefaultMapType := "satellite"

  /** `hasGoogleMapsApiKey`: every key is usable except the two that mean
      "no key": the empty string and the checkout placeholder. */
  predicate HasGoogleMapsApiKey(key: string): (r: bool)
    ensures r <==> key !in {"", PlaceholderApiKey}
  {
    |key| > 0 && key != PlaceholderApiKey
  }

  /** The two unusable keys, the empty string and the checkout placeholder,
      give the same placeholder image; every other key gives a request to
      Google carrying that key. */
  lemma UnusableKeys(key: string, latitude: Coordinate, longitude: Coordinate)
    ensures !HasGoogleMapsApiKey("") && !HasGoogleMapsApiKey(PlaceholderApiKey)
    ensures MapUrl(PlaceholderApiKey, latitude, longitude) == MapUrl("", latitude, longitude)
    ensures IsStaticMapsRequest(MapUrl(key, latitude, longitude)) <==> key != "" && key != PlaceholderApiKey
  {
  }

  /** A Static Maps request: the endpoint followed by a query. */
  predicate IsStaticMapsRequest(url: string) {
    StaticMapsUrl + "?" <= url
  }

  /** Both placeholder images come from via.placeholder.com at 400x300; the
      blue one (1a73e8) stands in for Google, the green one (4CAF50) is the
      fallback. */
  const PlaceholderHost := "https://via.placeholder.com/400x300/"
  const PlaceholderPrefix := PlaceholderHost + "1a73e8/FFFFFF?text="
  const FallbackPrefix := PlaceholderHost + "4CAF50/FFFFFF?text="

  const PlaceholderText1 := "\U{1F5FA}\U{FE0F}+Google+Maps+Satellite+View%0A%0A\U{1F4CD}+"
  const PlaceholderText2 := "%0A\U{1F4CD}+"
  const PlaceholderText3 := "%0A%0A\U{1F511}+Add+API+Key+for+real+satellite+view%0A%0A\U{1F4F1}+Street+Level+Zoom+18"
  const FallbackText1 := "\U{1F5FA}\U{FE0F}+Map+View%0A%0A\U{1F4CD}+Latitude:+"
  const FallbackText2 := "%0A\U{1F4CD}+Longitude:+"
  const FallbackText3 := "%0A%0A\U{1F511}+Google+Maps+API+needs+to+be+enabled%0A%0A\U{1F4F1}+Street+Level+Zoom+18"

  /** The blue "add an API key" placeholder image for a position: a
      via.placeholder.com address, not a request to Google, naming both
      coordinates to six decimals. */
  function PlaceholderUrl(latitude: Coordinate, longitude: Coordinate): (r: string)
    ensures PlaceholderPrefix <= r
    ensures !IsStaticMapsRequest(r)
    ensures IsInfix(latitude.fixed6, r) && IsInfix(longitude.fixed6, r)
  {
    var a := PlaceholderPrefix + PlaceholderText1;
    var r := a + latitude.fixed6 + PlaceholderText2 + longitude.fixed6 + PlaceholderText3;
    InfixOfTemplate(a, latitude.fixed6, PlaceholderText2, longitude.fixed6, PlaceholderText3);
    PlaceholderIsNotRequest(a, r);
    r
  }

  /** The query parameters of a Static Maps request, in the order the
      `URLSearchParams` object is built. */
  function StaticMapParams(key: string, latitude: Coordinate, longitude: Coordinate): seq<(string, string)> {
    [ ("center", latitude.text + "," + longitude.text),
      ("zoom", DefaultZoom),
      ("size", DefaultSize),
      ("maptype", DefaultMapType),
      ("scale", DefaultScale),
      ("key", key) ]
  }

  /** `getMapUrl`. With a usable key, a Static Maps request whose query
      parses back to exactly the six parameters, so it names the position and
      carries the key; without one, the blue placeholder, which names the
      position to six decimals and is never a request to Google. */
  function MapUrl(key: string, latitude: Coordinate, longitude: Coordinate): (r: string)
    ensures HasGoogleMapsApiKey(key) ==>
      && IsStaticMapsRequest(r)
      && IsInfix(GoogleApisHost, r)
      && PercentEncoding.ParseQuery(r[|StaticMapsUrl| + 1..], true)
         == Some(StaticMapParams(key, latitude, longitude))
    ensures !HasGoogleMapsApiKey(key) ==>
      && PlaceholderPrefix <= r
      && !IsStaticMapsRequest(r)
      && IsInfix(latitude.fixed6, r) && IsInfix(longitude.fixed6, r)
  {
    if !HasGoogleMapsApiKey(key) then
      PlaceholderUrl(latitude, longitude)
    else
      var query := PercentEncoding.SerializeQuery(PercentEncoding.FormUrlencoded, StaticMapParams(key, latitude, longitude));
      StaticMapsRequestFacts(query);
      PercentEncoding.QueryRoundTrip(PercentEncoding.FormUrlencoded, StaticMapParams(key, latitude, longitude));
      StaticMapsUrl + "?" + query
  }

  lemma StaticMapsRequestFacts(query: string)
    ensures IsStaticMapsRequest(StaticMapsUrl + "?" + query)
    ensures IsInfix(GoogleApisHost, StaticMapsUrl + "?" + query)
    ensures (StaticMapsUrl + "?" + query)[|StaticMapsUrl| + 1..] == query
  {
    RequestShape("https://", GoogleApisHost, "/maps/api/staticmap", query);
  }

  /** A request URL `scheme + host + path + "?" + query` names its host and
      ends with its query. */
  lemma RequestShape(scheme: string, host: string, path: string, query: string)
    ensures scheme + host + path + "?" <= scheme + host + path + "?" + query
    ensures IsInfix(host, scheme + host + path + "?" + query)
    ensures (scheme + host + path + "?" + query)[|scheme + host + path| + 1..] == query
  {
    InfixOfConcat(scheme, host, path + "?" + query);
    assert scheme + host + path + "?" + query == scheme + host + (path + "?" + query);
  }

  /** A URL beginning with a via.placeholder.com address is not a Static Maps request. */
  lemma PlaceholderIsNotRequest(start: string, url: string)
    requires PlaceholderHost <= start <= url
    ensures !IsStaticMapsRequest(url)
  {
    assert url[8] == start[8] == PlaceholderHost[8] == 'v';
    assert (StaticMapsUrl + "?")[8] == StaticMapsUrl[8] == 'm';
  }

  /** `getFallbackMapUrl`: the green placeholder. It takes no key, names the
      position to six decimals and is never a request to Google. */
  function FallbackMapUrl(latitude: Coordinate, longitude: Coordinate): (r: string)
    ensures FallbackPrefix <= r
    ensures !IsStaticMapsRequest(r)
    ensures IsInfix(latitude.fixed6, r) && IsInfix(longitude.fixed6, r)
  {
    var a := FallbackPrefix + FallbackText1;
    var r := a + latitude.fixed6 + FallbackText2 + longitude.fixed6 + FallbackText3;
    InfixOfTemplate(a, latitude.fixed6, FallbackText2, longitude.fixed6, FallbackText3);
    PlaceholderIsNotRequest(a, r);
    r
  }

  /** The fallback image is never the image `getMapUrl` chose, whatever the
      key: switching to the fallback always changes what is displayed. */
  lemma FallbackDiffersFromMapUrl(key: string, latitude: Coordinate, longitude: Coordinate)
    ensures FallbackMapUrl(latitude, longitude) != MapUrl(key, latitude, longitude)
  {
    var f := FallbackMapUrl(latitude, longitude);
    var m := MapUrl(key, latitude, longitude);
    if !HasGoogleMapsApiKey(key) {
      assert f[36] == FallbackPrefix[36] == '4';
      assert m[36] == PlaceholderPrefix[36] == '1';
    }
  }

  /** In the `center` parameter the comma between the coordinates is
      percent-encoded as `%2C`. */
  lemma CentreCommaEncoded(latitude: Coordinate, longitude: Coordinate)
    ensures PercentEncoding.Encode(PercentEncoding.FormUrlencoded, latitude.text + "," + longitude.text)
         == PercentEncoding.Encode(PercentEncoding.FormUrlencoded, latitude.text) + "%2C"
            + PercentEncoding.Encode(PercentEncoding.FormUrlencoded, longitude.text)
  {
    var F := PercentEncoding.FormUrlencoded;
    PercentEncoding.EncodeAppend(F, latitude.text + ",", longitude.text);
    PercentEncoding.EncodeAppend(F, latitude.text, ",");
    assert PercentEncoding.Encode(F, ",") == "%2C";
  }
}
