/** The light/dark theme provider: which mode is chosen, how it resolves to
    a colour scheme, and how that scheme is written onto the document root.
    Browser facilities become data: `localStorage` is a map, the
    `prefers-color-scheme: dark` media query a boolean, the root element its
    class set and attributes. */
module ThemeProvider {
  import opened Optional

  datatype Scheme = Light | Dark

  /** A theme mode: a fixed scheme, or whatever the system prefers. */
  datatype ThemeMode = Fixed(scheme: Scheme) | System

  function SchemeName(s: Scheme): string {
    match s
    case Light => "light"
    case Dark => "dark"
  }

  function Opposite(s: Scheme): Scheme {
    match s
    case Light => Dark
    case Dark => Light
  }

  /** The name a mode is stored and compared under. */
  function ModeName(m: ThemeMode): string {
    match m
    case Fixed(s) => SchemeName(s)
    case System => "system"
  }

  const ModeNames: seq<string> := ["light", "dark", "system"]

  /** The mount effect's reading of the stored value: adopted only when it
      is one of the three mode names. */
  function ParseStoredMode(stored: Option<string>): (r: Option<ThemeMode>)
    ensures r.Some? <==> stored.Some? && stored.value in ModeNames
    ensures r.Some? ==> ModeName(r.value) == stored.value
  {
    if stored == Some("light") then Some(Fixed(Light))
    else if stored == Some("dark") then Some(Fixed(Dark))
    else if stored == Some("system") then Some(System)
    else None
  }

  /** Storing a mode and reading it back gives the same mode. */
  lemma StoredModeRoundTrip(m: ThemeMode)
    ensures ParseStoredMode(Some(ModeName(m))) == Some(m)
  {
  }

  /** `getSystemTheme`. */
  function SystemScheme(prefersDark: bool): (s: Scheme)
    ensures s == Dark <==> prefersDark
  {
    if prefersDark then Dark else Light
  }

  /** The resolved theme: the system preference for "system", the mode's own
      scheme otherwise; never "system". */
  function Resolve(mode: ThemeMode, prefersDark: bool): (s: Scheme)
    ensures mode.Fixed? ==> s == mode.scheme
    ensures mode.System? ==> (s == Dark <==> prefersDark)
  {
    if mode.System? then SystemScheme(prefersDark) else mode.scheme
  }

  /** The document root element: its class list and its other attributes. */
  datatype Root = Root(classes: set<string>, attributes: map<string, string>)

  /** The root shows `s`: in class mode as the class of that name without the
      other one, otherwise as the value of the configured attribute. */
  predicate Shows(root: Root, attribute: string, s: Scheme) {
    if attribute == "class" then SchemeName(s) in root.classes && SchemeName(Opposite(s)) !in root.classes
    else attribute in root.attributes && root.attributes[attribute] == SchemeName(s)
  }

  /** `applyTheme(resolved)`. */
  function ApplyScheme(root: Root, attribute: string, s: Scheme): (r: Root)
    ensures Shows(r, attribute, s)
    ensures attribute == "class" ==>
      && (forall c :: c != "light" && c != "dark" ==> (c in r.classes <==> c in root.classes))
      && r.attributes == root.attributes
    ensures attribute != "class" ==>
      && r.classes == root.classes
      && (forall a :: a != attribute ==> (a in r.attributes <==> a in root.attributes))
      && (forall a :: a != attribute && a in root.attributes ==> r.attributes[a] == root.attributes[a])
  {
    if attribute == "class" then root.(classes := root.classes - {"light", "dark"} + {SchemeName(s)})
    else root.(attributes := root.attributes[attribute := SchemeName(s)])
  }

  /** The provider's props, with their defaults. */
  datatype Props = Props(defaultTheme: ThemeMode, storageKey: string, attribute: string, enableSystem: bool)

  const DefaultProps := Props(System, "theme", "class", true)

  /** The provider's state together with the parts of the browser it touches. */
  datatype Provider = Provider(theme: ThemeMode, resolvedTheme: Scheme, storage: map<string, string>, root: Root)

  /** The resolved theme agrees with the mode and is what the root shows. */
  predicate Consistent(p: Provider, props: Props, prefersDark: bool) {
    p.resolvedTheme == Resolve(p.theme, prefersDark) && Shows(p.root, props.attribute, p.resolvedTheme)
  }

  function StoredValue(storage: map<string, string>, key: string): Option<string> {
    if key in storage then Some(storage[key]) else None
  }

  /** The mount effect: adopt a valid stored mode. */
  function LoadStoredMode(p: Provider, props: Props): (r: Provider)
    ensures ParseStoredMode(StoredValue(p.storage, props.storageKey)).Some? ==>
      r.theme == ParseStoredMode(StoredValue(p.storage, props.storageKey)).value
    ensures ParseStoredMode(StoredValue(p.storage, props.storageKey)).None? ==> r == p
    ensures r.(theme := p.theme) == p
  {
    var stored := ParseStoredMode(StoredValue(p.storage, props.storageKey));
    if stored.Some? then p.(theme := stored.value) else p
  }

  /** The effect on `theme`: resolve it and apply the result to the root. */
  function ResolveAndApply(p: Provider, props: Props, prefersDark: bool): (r: Provider)
    ensures Consistent(r, props, prefersDark)
    ensures r.theme == p.theme && r.storage == p.storage
  {
    var resolved := Resolve(p.theme, prefersDark);
    p.(resolvedTheme := resolved, root := ApplyScheme(p.root, props.attribute, resolved))
  }

  /** The first commit and the re-render it may trigger. The effects run in
      declaration order: the stored mode is read (a state update), the
      default mode is resolved and applied, and if the stored mode differed
      the re-render resolves and applies it. */
  function Mount(props: Props, storage: map<string, string>, root: Root, prefersDark: bool): (r: Provider)
    ensures r.theme == ParseStoredMode(StoredValue(storage, props.storageKey)).GetOr(props.defaultTheme)
    ensures Consistent(r, props, prefersDark)
    ensures r.storage == storage
  {
    var first := ResolveAndApply(Provider(props.defaultTheme, Light, storage, root), props, prefersDark);
    var loaded := LoadStoredMode(first, props);
    if loaded.theme != first.theme then ResolveAndApply(loaded, props, prefersDark) else loaded
  }

  /** `setTheme(m)`: the mode is stored and adopted; the effect on `theme`
      re-runs only if the mode changed. */
  function SetTheme(p: Provider, props: Props, prefersDark: bool, m: ThemeMode): (r: Provider)
    ensures r.theme == m
    ensures r.storage == p.storage[props.storageKey := ModeName(m)]
    ensures Consistent(p, props, prefersDark) ==> Consistent(r, props, prefersDark)
  {
    var stored := p.(theme := m, storage := p.storage[props.storageKey := ModeName(m)]);
    if m != p.theme then ResolveAndApply(stored, props, prefersDark) else stored
  }

  /** A mode set with `setTheme` is the mode of the next mount. */
  lemma SetThemeSurvivesReload(p: Provider, props: Props, prefersDark: bool, m: ThemeMode, root: Root, laterPrefersDark: bool)
    ensures Mount(props, SetTheme(p, props, prefersDark, m).storage, root, laterPrefersDark).theme == m
  {
    StoredModeRoundTrip(m);
  }

  /** The media-query listener, subscribed only while system following is
      enabled and the mode is "system". */
  function SystemPreferenceChanged(p: Provider, props: Props, prefersDark: bool): (r: Provider)
    ensures r.theme == p.theme && r.storage == p.storage
    ensures props.enableSystem && p.theme == System ==> Consistent(r, props, prefersDark)
    ensures !(props.enableSystem && p.theme == System) ==> r == p
  {
    if props.enableSystem && p.theme == System then ResolveAndApply(p, props, prefersDark) else p
  }

  /** Except for "system" mode with system following disabled, a change of
      the system preference keeps the provider consistent. */
  lemma PreferenceChangeKeepsConsistency(p: Provider, props: Props, before: bool, after: bool)
    requires Consistent(p, props, before)
    requires props.enableSystem || p.theme.Fixed?
    ensures Consistent(SystemPreferenceChanged(p, props, after), props, after)
  {
  }

  /** With `enableSystem` off, "system" mode still resolves to the system
      preference when the mode is applied, but later changes of that
      preference are not followed. */
  lemma DisabledSystemFollowingGoesStale(p: Provider, props: Props)
    requires Consistent(p, props, false)
    requires !props.enableSystem && p.theme == System
    ensures p.resolvedTheme == Light
    ensures SystemPreferenceChanged(p, props, true).resolvedTheme == Light
    ensures Resolve(p.theme, true) == Dark
  {
  }

  /** What `useTheme` hands out. */
  datatype ThemeContext = ThemeContext(theme: ThemeMode, resolvedTheme: Scheme)

  const OutsideProviderMessage := "useTheme must be used within a ThemeProvider"

  /** `useTheme` outside a `ThemeProvider` throws. */
  function UseTheme(context: Option<ThemeContext>): (r: Result<ThemeContext, string>)
    ensures context.None? <==> r.Failure?
    ensures r.Failure? ==> r.error == OutsideProviderMessage
    ensures r.Success? ==> r.value == context.value
  {
    if context.None? then Failure(OutsideProviderMessage) else Success(context.value)
  }

  /** The provider's context value. */
  function ContextOf(p: Provider): (c: ThemeContext)
    ensures c.resolvedTheme == p.resolvedTheme && c.theme == p.theme
  {
    ThemeContext(p.theme, p.resolvedTheme)
  }
}
