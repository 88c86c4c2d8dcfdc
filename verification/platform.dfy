/** Values the application receives from, or hands to, the platform
    (expo-location, expo-image-picker, React Native's Alert and Linking). They
    are opaque here: the model never computes them, it only passes them on. */
module Platform {

  /** The permission status both expo permission requests resolve to. */
  datatype PermissionStatus = Granted | Denied | Undetermined

  /** A coordinate as the application prints it: `text` is JavaScript's
      `String(number)`, `fixed6` is `number.toFixed(6)`. Floating point is not
      modelled, so both renderings are given. */
  datatype Coordinate = Coordinate(text: string, fixed6: string)

  /** The `coords` of an expo-location `LocationObject`. */
  datatype Fix = Fix(latitude: Coordinate, longitude: Coordinate)

  /** A `Date`, known only through its `toLocaleString()` rendering. */
  datatype Timestamp = Timestamp(localeText: string)

  /** What a handler asks the platform to do. */
  datatype Effect =
    | ShowAlert(title: string, message: string)
    | OpenSettings
    | OpenUrl(url: string)
}
