/** The theme switch: the button steps the colour theme light, dark, system,
    light, and so on. */
module ThemeSwitch {
  import opened Wrappers

  datatype ThemeMode = Light | Dark | System

  /** The name the theme library stores for a mode. */
  function ThemeName(mode: ThemeMode): (r: string)
    ensures r in {"light", "dark", "system"}
  {
    match mode
    case Light => "light"
    case Dark => "dark"
    case System => "system"
  }

  /** The stored theme, or `system` when none is stored. The value is only
      cast, not checked, so any stored text passes through. */
  function ActiveTheme(theme: Option<string>): (r: string)
    ensures theme.None? ==> r == ThemeName(System)
    ensures theme.Some? ==> r == theme.value
  {
    theme.GetOr("system")
  }

  /** `getNextTheme`: light gives dark, dark gives system, anything else light. */
  function NextTheme(active: string): (r: ThemeMode)
    ensures active == ThemeName(Light) ==> r == Dark
    ensures active == ThemeName(Dark) ==> r == System
    ensures active != ThemeName(Light) && active != ThemeName(Dark) ==> r == Light
  {
    if active == "light" then Dark
    else if active == "dark" then System
    else Light
  }

  /** One click on the switch, from the stored theme. */
  function Click(theme: Option<string>): (r: ThemeMode)
    ensures theme.None? ==> r == Light
  {
    NextTheme(ActiveTheme(theme))
  }

  /** The next theme always differs from the current one. */
  lemma NextDiffers(active: string)
    ensures ThemeName(NextTheme(active)) != active
  {
  }

  /** Three steps from any mode return to it. */
  lemma ThreeStepsReturn(mode: ThemeMode)
    ensures NextTheme(ThemeName(NextTheme(ThemeName(NextTheme(ThemeName(mode)))))) == mode
  {
  }

  /** After one step the theme is a proper mode, so from any stored text three
      more clicks come back to where the first click led. */
  lemma ClicksCycle(theme: Option<string>)
    ensures var first := Click(theme);
            Click(Some(ThemeName(Click(Some(ThemeName(Click(Some(ThemeName(first))))))))) == first
  {
    ThreeStepsReturn(Click(theme));
  }
}
