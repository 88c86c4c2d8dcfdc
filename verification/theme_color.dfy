/** Theme colour lookup (hooks/useThemeColor.ts). The colour table of
    constants/Colors.ts is a parameter: a colour for every theme and key. */
module ThemeColor {
  import opened Wrappers

  datatype Theme = Light | Dark

  /** The keys the table defines for both themes. */
  datatype ColorName =
    | Primary | Secondary | Tertiary | Surface | Background | Error | Success
    | Text | TextSecondary | TextTertiary | TextDisabled
    | Icon | IconPrimary | IconSecondary | TabIconDefault | TabIconSelected
    | Tint | Link
    | SurfaceVariant | SurfaceContainer | SurfaceContainerHigh | SurfaceContainerHighest
    | Outline | OutlineVariant

  /** `Colors[theme][name]`. */
  type Palette = (Theme, ColorName) -> string

  /** Per-theme overrides given by a component (`lightColor`, `darkColor`). */
  datatype ThemeProps = ThemeProps(light: Option<string>, dark: Option<string>)

  /** `useColorScheme() ?? 'light'`: a null or undefined scheme means light. */
  function ResolvedTheme(scheme: Option<Theme>): (t: Theme)
    ensures scheme.None? ==> t == Light
    ensures scheme.Some? ==> t == scheme.value
  {
    scheme.GetOr(Light)
  }

  /** `props[theme]`. */
  function PropFor(props: ThemeProps, t: Theme): Option<string> {
    match t
    case Light => props.light
    case Dark => props.dark
  }

  /** JavaScript truthiness of an optional string: present and non-empty. */
  predicate Truthy(c: Option<string>) {
    c.Some? && c.value != ""
  }

  /** `useThemeColor`: the current theme's override when it is truthy, else
      the table entry for `colorName`, else the theme's background. */
  function UseThemeColor(colors: Palette, scheme: Option<Theme>, props: ThemeProps, colorName: Option<ColorName>): (r: string)
    ensures var t := ResolvedTheme(scheme);
      && (Truthy(PropFor(props, t)) ==> r == PropFor(props, t).value)
      && (!Truthy(PropFor(props, t)) && colorName.Some? ==> r == colors(t, colorName.value))
      && (!Truthy(PropFor(props, t)) && colorName.None? ==> r == colors(t, Background))
  {
    var t := ResolvedTheme(scheme);
    var fromProps := PropFor(props, t);
    if Truthy(fromProps) then fromProps.value
    else if colorName.Some? then colors(t, colorName.value)
    else colors(t, Background)
  }

  /** The override for the theme not in use is never consulted. */
  lemma OtherThemePropIgnored(colors: Palette, scheme: Option<Theme>, props: ThemeProps, colorName: Option<ColorName>, other: Option<string>)
    ensures ResolvedTheme(scheme) == Light ==>
      UseThemeColor(colors, scheme, props.(dark := other), colorName) == UseThemeColor(colors, scheme, props, colorName)
    ensures ResolvedTheme(scheme) == Dark ==>
      UseThemeColor(colors, scheme, props.(light := other), colorName) == UseThemeColor(colors, scheme, props, colorName)
  {
  }

  /** An empty override counts as no override. */
  lemma EmptyPropIsAbsent(colors: Palette, t: Theme, props: ThemeProps, colorName: Option<ColorName>)
    ensures t == Light ==>
      UseThemeColor(colors, Some(t), props.(light := Some("")), colorName)
      == UseThemeColor(colors, Some(t), props.(light := None), colorName)
    ensures t == Dark ==>
      UseThemeColor(colors, Some(t), props.(dark := Some("")), colorName)
      == UseThemeColor(colors, Some(t), props.(dark := None), colorName)
  {
  }

  /** Without a scheme, colours are those of the light theme. */
  lemma MissingSchemeIsLight(colors: Palette, props: ThemeProps, colorName: Option<ColorName>)
    ensures UseThemeColor(colors, None, props, colorName) == UseThemeColor(colors, Some(Light), props, colorName)
  {
  }

  datatype SurfaceVariantName = SurfaceTone | SurfaceVariantTone | SurfaceContainerTone | SurfaceContainerHighTone | SurfaceContainerHighestTone

  function SurfaceKey(v: SurfaceVariantName): ColorName {
    match v
    case SurfaceTone => Surface
    case SurfaceVariantTone => SurfaceVariant
    case SurfaceContainerTone => SurfaceContainer
    case SurfaceContainerHighTone => SurfaceContainerHigh
    case SurfaceContainerHighestTone => SurfaceContainerHighest
  }

  /** `useSurfaceColor`, whose variant defaults to `surface`: the table entry
      itself, which is what `useThemeColor` gives for that key without overrides. */
  function UseSurfaceColor(colors: Palette, scheme: Option<Theme>, variant: SurfaceVariantName := SurfaceTone): (r: string)
    ensures r == UseThemeColor(colors, scheme, ThemeProps(None, None), Some(SurfaceKey(variant)))
  {
    colors(ResolvedTheme(scheme), SurfaceKey(variant))
  }

  datatype SemanticName = PrimaryRole | SecondaryRole | TertiaryRole | ErrorRole | SuccessRole

  function SemanticKey(c: SemanticName): ColorName {
    match c
    case PrimaryRole => Primary
    case SecondaryRole => Secondary
    case TertiaryRole => Tertiary
    case ErrorRole => Error
    case SuccessRole => Success
  }

  /** `useSemanticColor`: the table entry itself, which is what `useThemeColor`
      gives for that key without overrides. */
  function UseSemanticColor(colors: Palette, scheme: Option<Theme>, color: SemanticName): (r: string)
    ensures r == UseThemeColor(colors, scheme, ThemeProps(None, None), Some(SemanticKey(color)))
  {
    colors(ResolvedTheme(scheme), SemanticKey(color))
  }

  /** Called without a variant, `useSurfaceColor` gives the theme's surface colour. */
  lemma SurfaceDefault(colors: Palette, scheme: Option<Theme>)
    ensures UseSurfaceColor(colors, scheme) == colors(ResolvedTheme(scheme), Surface)
  {
  }
}
