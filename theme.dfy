/** The theme manager: the selected mode, the toggle between light and dark (with the
    system's current preference passed in, since detecting it reads the environment),
    and the display name and icon of each mode. Applying visuals is not modelled. */
module Theme {

  import opened Settings

  /** The mode `toggle_theme` switches to. */
  function Toggled(mode: ThemeMode, systemDark: bool): (r: ThemeMode)
    ensures r != System
    ensures mode == Light ==> r == Dark
    ensures mode == Dark ==> r == Light
    ensures mode == System ==> (r == Light <==> systemDark)
  {
    match mode
    case Light => Dark
    case Dark => Light
    case System => if systemDark then Light else Dark
  }

  /** Whether the interface is drawn dark in `mode`. */
  function AppearsDark(mode: ThemeMode, systemDark: bool): bool
  {
    match mode
    case Light => false
    case Dark => true
    case System => systemDark
  }

  /** Toggling always flips what the user sees, whatever mode it starts from. */
  lemma ToggleFlipsAppearance(mode: ThemeMode, systemDark: bool)
    ensures AppearsDark(Toggled(mode, systemDark), systemDark) == !AppearsDark(mode, systemDark)
  {
  }

  /** Two toggles lead back to an explicit mode; from System they land on the mode the
      system preference already shows. */
  lemma ToggleTwice(mode: ThemeMode, systemDark: bool)
    ensures mode != System ==> Toggled(Toggled(mode, systemDark), systemDark) == mode
    ensures mode == System ==>
      Toggled(Toggled(mode, systemDark), systemDark) == (if systemDark then Dark else Light)
  {
  }

  /** `get_theme_name`. */
  function ThemeName(mode: ThemeMode): string
  {
    match mode
    case Light => "Light"
    case Dark => "Dark"
    case System => "System"
  }

  /** `get_theme_icon`: sun, crescent moon, and desktop computer with emoji presentation. */
  function ThemeIcon(mode: ThemeMode): string
  {
    match mode
    case Light => "\U{1F31E}"
    case Dark => "\U{1F319}"
    case System => "\U{1F5A5}\U{FE0F}"
  }

  /** Each mode has its own name and its own icon. */
  lemma NamesAndIconsDistinct(a: ThemeMode, b: ThemeMode)
    ensures ThemeName(a) == ThemeName(b) <==> a == b
    ensures ThemeIcon(a) == ThemeIcon(b) <==> a == b
  {
  }

  class ThemeManager {

    var currentMode: ThemeMode

    /** `ThemeManager::new`: starts in the configured mode. */
    constructor (config: ThemeConfig)
      ensures currentMode == config.mode
    {
      currentMode := config.mode;
    }

    /** `Default`: follows the system. */
    constructor Default()
      ensures currentMode == System
    {
      currentMode := System;
    }

    method SetTheme(mode: ThemeMode)
      modifies this
      ensures currentMode == mode
    {
      currentMode := mode;
    }

    method GetCurrentMode() returns (mode: ThemeMode)
      ensures mode == currentMode
    {
      mode := currentMode;
    }

    /** `toggle_theme`: switches to the opposite appearance and returns the new mode. */
    method ToggleTheme(systemDark: bool) returns (mode: ThemeMode)
      modifies this
      ensures mode == Toggled(old(currentMode), systemDark) && currentMode == mode
      ensures mode != System
      ensures AppearsDark(mode, systemDark) == !AppearsDark(old(currentMode), systemDark)
    {
      mode := Toggled(currentMode, systemDark);
      ToggleFlipsAppearance(currentMode, systemDark);
      SetTheme(mode);
    }

    method GetThemeName() returns (name: string)
      ensures name == ThemeName(currentMode)
      ensures name in {"Light", "Dark", "System"}
    {
      name := ThemeName(currentMode);
    }

    method GetThemeIcon() returns (icon: string)
      ensures icon == ThemeIcon(currentMode)
    {
      icon := ThemeIcon(currentMode);
    }
  }
}
