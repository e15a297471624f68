/** The application configuration: its records and their defaults, the upgrade of a
    configuration written by the version before themes existed, and the decision tree
    `AppConfig::load` walks through the configuration file. TOML parsing and rendering
    are parameters; the file system is a small object holding the configuration file
    and its backup. Floating-point fields are carried as `real` and only copied. */
module Settings {

  import opened Wrappers
  import opened Ints
  import Fonts

  datatype ThemeMode = Light | Dark | System

  datatype ThemeConfig = ThemeConfig(mode: ThemeMode)

  datatype FontConfig = FontConfig(
    preferredFonts: seq<string>,
    fontSize: real,
    enableFontFallback: bool,
    autoDetectFonts: bool)

  datatype WindowConfig = WindowConfig(
    width: real,
    height: real,
    alwaysOnTop: bool,
    startMinimized: bool)

  datatype AppConfig = AppConfig(
    maxItems: u64,
    maxItemSize: u64,
    autoStart: bool,
    showNotifications: bool,
    hotkey: string,
    window: WindowConfig,
    theme: ThemeConfig,
    font: FontConfig)

  /** The configuration format of the previous version: no `theme` and no `font` table. */
  datatype OldAppConfig = OldAppConfig(
    maxItems: u64,
    maxItemSize: u64,
    autoStart: bool,
    showNotifications: bool,
    hotkey: string,
    window: WindowConfig)

  const DEFAULT_MAX_ITEMS: u64 := 100
  const DEFAULT_MAX_ITEM_SIZE: u64 := 1024 * 1024
  const DEFAULT_HOTKEY: string := "Ctrl+Shift+V"

  /** The two families every platform's default font list ends with. */
  const FONT_FALLBACKS: seq<string> := ["Arial Unicode MS", "DejaVu Sans"]

  function DefaultThemeMode(): (m: ThemeMode)
    ensures m == System
  {
    System
  }

  function DefaultThemeConfig(): (c: ThemeConfig)
    ensures c.mode == DefaultThemeMode()
  {
    ThemeConfig(DefaultThemeMode())
  }

  /** The one family selected by `cfg(target_os)`, if the target is one of the three. */
  function ConfigDefaultFamily(os: Fonts.TargetOs): seq<string>
  {
    match os
    case Windows => ["Microsoft YaHei"]
    case MacOs => ["PingFang SC"]
    case Linux => ["Noto Sans CJK SC"]
    case OtherOs => []
  }

  function DefaultFontConfig(os: Fonts.TargetOs): (c: FontConfig)
    ensures |c.preferredFonts| == |ConfigDefaultFamily(os)| + 2
    ensures c.preferredFonts[|c.preferredFonts| - 2..] == FONT_FALLBACKS
    ensures os == Fonts.OtherOs ==> c.preferredFonts == FONT_FALLBACKS
    ensures c.fontSize == 14.0 && c.enableFontFallback && c.autoDetectFonts
  {
    FontConfig(ConfigDefaultFamily(os) + FONT_FALLBACKS, 14.0, true, true)
  }

  function DefaultWindowConfig(): (w: WindowConfig)
    ensures w.width == 600.0 && w.height == 500.0
    ensures !w.alwaysOnTop && !w.startMinimized
  {
    WindowConfig(600.0, 500.0, false, false)
  }

  /** `AppConfig::default`: 100 items of at most 1 MiB, no auto start, notifications on. */
  function DefaultAppConfig(os: Fonts.TargetOs): (c: AppConfig)
    ensures c.maxItems == 100 && c.maxItemSize == 1_048_576
    ensures !c.autoStart && c.showNotifications
    ensures c.hotkey == "Ctrl+Shift+V"
    ensures c.window == DefaultWindowConfig()
    ensures c.theme.mode == System
    ensures c.font == DefaultFontConfig(os)
  {
    AppConfig(DEFAULT_MAX_ITEMS, DEFAULT_MAX_ITEM_SIZE, false, true, DEFAULT_HOTKEY,
              DefaultWindowConfig(), DefaultThemeConfig(), DefaultFontConfig(os))
  }

  /** The conversion inside `migrate_old_config`: every old field is kept and the new
      tables take their defaults. */
  function Upgrade(prev: OldAppConfig, os: Fonts.TargetOs): (c: AppConfig)
    ensures c.maxItems == prev.maxItems && c.maxItemSize == prev.maxItemSize
    ensures c.autoStart == prev.autoStart && c.showNotifications == prev.showNotifications
    ensures c.hotkey == prev.hotkey && c.window == prev.window
    ensures c.theme == DefaultThemeConfig() && c.font == DefaultFontConfig(os)
  {
    AppConfig(prev.maxItems, prev.maxItemSize, prev.autoStart, prev.showNotifications,
              prev.hotkey, prev.window, DefaultThemeConfig(), DefaultFontConfig(os))
  }

  /** The TOML layer: the two parsers (`None` for a parse error) and the renderer. */
  datatype Toml = Toml(
    parseNew: string -> Option<AppConfig>,
    parseOld: string -> Option<OldAppConfig>,
    render: AppConfig -> string)

  /** `migrate_old_config`: succeeds exactly when the text parses in the old format. */
  function MigrateOldConfig(content: string, toml: Toml, os: Fonts.TargetOs): (r: Option<AppConfig>)
    ensures r.Some? <==> toml.parseOld(content).Some?
    ensures r.Some? ==> r.value == Upgrade(toml.parseOld(content).value, os)
  {
    match toml.parseOld(content)
    case None => None
    case Some(prev) => Some(Upgrade(prev, os))
  }

  /** Reading and rewriting an old file keeps every setting it had and adds the defaults. */
  lemma MigrationKeepsOldSettings(prev: OldAppConfig, toml: Toml, os: Fonts.TargetOs, content: string)
    requires toml.parseOld(content) == Some(prev)
    ensures MigrateOldConfig(content, toml, os).Some?
    ensures var c := MigrateOldConfig(content, toml, os).value;
      OldAppConfig(c.maxItems, c.maxItemSize, c.autoStart, c.showNotifications, c.hotkey, c.window) == prev
    ensures MigrateOldConfig(content, toml, os).value.theme.mode == System
  {
  }

  /** Why `load` can fail: no configuration directory, an unreadable file, or a failed save. */
  datatype LoadError = NoProjectDirs | ReadFailed | WriteFailed

  /** The configuration directory: whether it can be located, the `config.toml` text (if
      the file exists), the `config.toml.backup` text, and whether reads and writes succeed. */
  datatype ConfigDir = ConfigDir(
    located: bool,
    file: Option<string>,
    backup: Option<string>,
    readable: bool,
    writable: bool)

  /** `save`: locate the file, create its directory and write the rendered config. */
  function SaveSpec(d: ConfigDir, toml: Toml, c: AppConfig): (out: (ConfigDir, Option<LoadError>))
    ensures out.1 == None <==> d.located && d.writable
    ensures out.1 == None ==> out.0 == d.(file := Some(toml.render(c)))
    ensures out.1 != None ==> out.0 == d
  {
    if !d.located then (d, Some(NoProjectDirs))
    else if !d.writable then (d, Some(WriteFailed))
    else (d.(file := Some(toml.render(c))), None)
  }

  /** Save `c` and return it, or return the save's error. */
  function SaveThen(d: ConfigDir, toml: Toml, c: AppConfig): (ConfigDir, Result<AppConfig, LoadError>)
  {
    var (d', e) := SaveSpec(d, toml, c);
    (d', if e.Some? then Err(e.value) else Ok(c))
  }

  /** `load`: the new state of the directory and the outcome. */
  function LoadSpec(d: ConfigDir, toml: Toml, os: Fonts.TargetOs): (ConfigDir, Result<AppConfig, LoadError>)
  {
    if !d.located then (d, Err(NoProjectDirs))
    else if d.file.None? then SaveThen(d, toml, DefaultAppConfig(os))
    else if !d.readable then (d, Err(ReadFailed))
    else
      var content := d.file.value;
      match toml.parseNew(content)
      case Some(c) => (d, Ok(c))
      case None =>
        match MigrateOldConfig(content, toml, os)
        case Some(c) => SaveThen(d, toml, c)
        case None =>
          var d' := if d.writable then d.(backup := Some(content)) else d;
          SaveThen(d', toml, DefaultAppConfig(os))
  }

  /** A file in the current format is returned as parsed and nothing is written. */
  lemma LoadCurrentFormat(d: ConfigDir, toml: Toml, os: Fonts.TargetOs)
    requires d.located && d.file.Some? && d.readable
    requires toml.parseNew(d.file.value).Some?
    ensures LoadSpec(d, toml, os) == (d, Ok(toml.parseNew(d.file.value).value))
  {
  }

  /** A file only the old parser accepts is upgraded, and the upgrade is saved over it. */
  lemma LoadOldFormat(d: ConfigDir, toml: Toml, os: Fonts.TargetOs)
    requires d.located && d.file.Some? && d.readable
    requires toml.parseNew(d.file.value).None? && toml.parseOld(d.file.value).Some?
    ensures var c := Upgrade(toml.parseOld(d.file.value).value, os);
      if d.writable then LoadSpec(d, toml, os) == (d.(file := Some(toml.render(c))), Ok(c))
      else LoadSpec(d, toml, os) == (d, Err(WriteFailed))
  {
  }

  /** A file neither parser accepts is copied to the backup and replaced by the defaults. */
  lemma LoadUnparsable(d: ConfigDir, toml: Toml, os: Fonts.TargetOs)
    requires d.located && d.file.Some? && d.readable
    requires toml.parseNew(d.file.value).None? && toml.parseOld(d.file.value).None?
    ensures var c := DefaultAppConfig(os);
      if d.writable
      then LoadSpec(d, toml, os) == (d.(file := Some(toml.render(c)), backup := d.file), Ok(c))
      else LoadSpec(d, toml, os) == (d, Err(WriteFailed))
  {
  }

  /** Without a file the defaults are written and returned. */
  lemma LoadMissingFile(d: ConfigDir, toml: Toml, os: Fonts.TargetOs)
    requires d.located && d.file.None?
    ensures var c := DefaultAppConfig(os);
      if d.writable then LoadSpec(d, toml, os) == (d.(file := Some(toml.render(c))), Ok(c))
      else LoadSpec(d, toml, os) == (d, Err(WriteFailed))
  {
  }

  /** The renderer and the new-format parser agree on `c`. */
  predicate RoundTrips(toml: Toml, c: AppConfig)
  {
    toml.parseNew(toml.render(c)) == Some(c)
  }

  /** Loading again after a successful load returns the same config and writes nothing,
      provided what was saved reads back (the serialisation round trip). */
  lemma {:induction false} LoadStable(d: ConfigDir, toml: Toml, os: Fonts.TargetOs)
    requires d.readable
    requires LoadSpec(d, toml, os).1.Ok?
    requires RoundTrips(toml, LoadSpec(d, toml, os).1.value)
    ensures LoadSpec(LoadSpec(d, toml, os).0, toml, os) == LoadSpec(d, toml, os)
  {
    var (d1, r1) := LoadSpec(d, toml, os);
    assert d1.located && d1.readable && d1.file.Some?;
    assert d1.file != d.file ==> d1.file == Some(toml.render(r1.value));
  }

  /** The configuration directory as the program sees it. */
  class ConfigFiles {

    var located: bool
    var file: Option<string>
    var backup: Option<string>
    var readable: bool
    var writable: bool

    function State(): ConfigDir
      reads this
    {
      ConfigDir(located, file, backup, readable, writable)
    }

    constructor (d: ConfigDir)
      ensures State() == d
    {
      located, file, backup, readable, writable := d.located, d.file, d.backup, d.readable, d.writable;
    }

    /** `AppConfig::save`. */
    method Save(toml: Toml, c: AppConfig) returns (err: Option<LoadError>)
      modifies this
      ensures (State(), err) == SaveSpec(old(State()), toml, c)
    {
      if !located {
        return Some(NoProjectDirs);
      }
      if !writable {
        return Some(WriteFailed);
      }
      file := Some(toml.render(c));
      err := None;
    }

    /** `AppConfig::load`. */
    method Load(toml: Toml, os: Fonts.TargetOs) returns (r: Result<AppConfig, LoadError>)
      modifies this
      ensures (State(), r) == LoadSpec(old(State()), toml, os)
    {
      if !located {
        return Err(NoProjectDirs);
      }
      var c: AppConfig;
      if file.None? {
        c := DefaultAppConfig(os);
      } else {
        if !readable {
          return Err(ReadFailed);
        }
        var content := file.value;
        var parsed := toml.parseNew(content);
        if parsed.Some? {
          return Ok(parsed.value);
        }
        var migrated := MigrateOldConfig(content, toml, os);
        if migrated.Some? {
          c := migrated.value;
        } else {
          if writable {
            backup := Some(content);
          }
          c := DefaultAppConfig(os);
        }
      }
      var err := Save(toml, c);
      r := if err.Some? then Err(err.value) else Ok(c);
    }
  }
}
