# clipmanager, modelled in Dafny

clipmanager is a desktop clipboard history manager. A background monitor polls the system
clipboard and turns each new text or image into a `ClipboardItem`. The items go into an
SQLite-backed history store, which deduplicates them by content hash, keeps at most 1000
rows, and answers filtered, newest-first queries. Around this engine sit several smaller
pieces:

- per-script font selection;
- a light/dark/system theme toggle;
- a two-language text table;
- the application configuration, with its defaults and the upgrade of old configuration files.

This project models that engine and those helpers, and proves properties of the model.

| file | module | what it holds |
|---|---|---|
| `basics.dfy` | `Wrappers`, `Ints`, `Strings` | `Option`/`Result`; Rust's `as u32`, `as usize` and `as i64` casts; UTF-8 length; `str::trim`; the `{}`/`{:x}` renderings |
| `errors.dfy` | `Errors` | the error enum, and the message of a rejected duplicate |
| `types.dfy` | `ItemTypes` | `ClipboardItem`, `ImageData`, `ImageFormat`, `SearchFilter` and their operations |
| `rows.dfy` | `Rows` | the `clipboard_items` table as a sequence of rows, with the pure effect of every SQL statement the store runs |
| `query.dfy` | `Search` | the `get_items` WHERE clause, SQLite `LIKE`, and the ordered LIMIT/OFFSET window |
| `models.dfy` | `RowDecode` | `ClipboardItem::from_row` |
| `schema.dfy` | `Schema` | the on-disk state, and the version 0 to version 1 migration |
| `database.dfy` | `Store` | the `Database` class |
| `monitor.dfy` | `Monitor` | signature sniffing, the poll step, the poll loop, and the `ClipboardMonitor` class |
| `fonts.dfy` | `Fonts` | `detect_script`, the per-script font lists, and the `FontManager` class |
| `theme.dfy` | `Theme` | the `ThemeManager` class and its toggle |
| `settings.dfy` | `Settings` | the configuration records, their defaults, `migrate_old_config`, `save` and `load` |
| `i18n.dfy` | `Locale`, `Localization` | the `I18n` lookup object and the process-wide instance |
| `texts.dfy` | `Texts` | the English and Chinese tables, built insert by insert |

Modelling choices:

- **Hashers.** The two `DefaultHasher` digests (one over a `str`, one over a `[u8]`) are a
  `Hasher` parameter holding two arbitrary 64-bit functions. Nothing assumes they are
  collision-free.
- **Clock.** `Utc::now` is an integer `now` argument. A poll carries two instants, one for the
  text item and one for the image item, because `new_text` and `new_image` each read the clock.
- **Clipboard and file system.** What the clipboard returns, whether each of a poll's two
  sends on the channel succeeds (the receiver can hang up between them), and what the
  configuration files contain are all inputs.
- **TOML.** TOML parsing and rendering are a `Toml` parameter.
- **Store state.** The store's state is the schema version, whether the table exists, its
  columns, its rows in rowid order, and the AUTOINCREMENT high-water mark.

`start` hands the polling thread private copies of the last text and last image hash
(src/clipboard/monitor.rs:46-49). `set_clipboard_content` only updates the struct's field,
which the running loop never reads. `Monitor.OwnWriteRecaptured` shows the consequence: the
application's own write is sent again on the next poll.

## Model

| member | source | states |
|---|---|---|
| Ints.AsU32 | src/clipboard/monitor.rs:92-93 | the `as u32` cast of the image dimensions keeps values below 2^32 and otherwise agrees with its input modulo 2^32 |
| Ints.AsUsize | src/storage/models.rs:50 | the `as usize` cast of a stored `i64` is the identity on non-negative values and wraps negatives modulo 2^64 |
| Ints.AsI64 | src/storage/database.rs:352-361 | `max_items as i64` keeps values below 2^63 and maps larger ones to negatives, which SQLite then reads as "no limit" |
| Strings.Utf8LengthBounds | src/clipboard/types.rs:51 | the byte length `content.len()` is between the character count and four times it, and equals the character count exactly for ASCII text |
| Strings.TrimEmptyIffAllWhitespace | src/clipboard/monitor.rs:58 | `trim().is_empty()` holds exactly when every character is Unicode whitespace |
| Strings.ParseRender | src/clipboard/types.rs:91-101 | reading back a decimal or lower-hex rendering gives the number, so `{:x}` loses nothing |
| Strings.RenderInjective | src/clipboard/types.rs:91-101 | two numbers render equally exactly when they are equal |
| ItemTypes.HashStringsAgreeWithDigests | src/clipboard/types.rs:91-101 | two rendered hashes are equal exactly when the underlying digests are |
| ItemTypes.NewText | src/clipboard/types.rs:50-66 | a fresh text item: no id, type Text, size equal to the UTF-8 byte length, the text hash, equal timestamps, no accesses, not a favourite |
| ItemTypes.NewImage | src/clipboard/types.rs:68-84 | a fresh image item: type Image, size equal to the byte count, the byte hash, and the other fields as for text |
| ItemTypes.New | src/clipboard/types.rs:87-89 | identical to `new_text` |
| ItemTypes.Preview | src/clipboard/types.rs:103-123 | text of at most `max` characters comes back unchanged; longer text gives its first `max` characters and "..."; an image gives "Image (WxH, N bytes)" |
| ItemTypes.PreviewOfText | src/clipboard/types.rs:103-113 | a text preview starts with the first min(n, max) characters of the text, is at most three characters longer than `max`, and ends in "..." exactly when the text was cut |
| ItemTypes.PreviewOfEmptyText | src/clipboard/types.rs:107-108 | the empty text previews as "" whatever the bound |
| ItemTypes.GetTextContent | src/clipboard/types.rs:125-130 | `Some` exactly for text content, carrying that text |
| ItemTypes.GetImageData | src/clipboard/types.rs:132-137 | `Some` exactly for image content, carrying that image |
| ItemTypes.UpdateAccess | src/clipboard/types.rs:139-142 | sets `accessed_at`, adds one to `access_count` (mod 2^32) and changes no other field |
| ItemTypes.UpdateAccessKeepsWellFormed | src/clipboard/types.rs:139-142 | an access at a later instant keeps the item's invariants |
| ItemTypes.RepeatedAccess | src/clipboard/types.rs:139-142 | t accesses at non-decreasing instants add exactly t to the counter (mod 2^32), never move `accessed_at` back, keep the item well-formed and change no other field |
| ItemTypes.NewImageData | src/clipboard/types.rs:146-153 | stores the bytes, format and dimensions it is given |
| ItemTypes.FromMimeType | src/clipboard/types.rs:161-169 | recognises exactly the four canonical MIME types and "image/jpg" |
| ItemTypes.MimeRoundTrip | src/clipboard/types.rs:161-178 | `from_mime_type(to_mime_type(f)) == Some(f)`, and the strings that map to `f` are its MIME type plus, for JPEG, "image/jpg" |
| ItemTypes.FileExtension | src/clipboard/types.rs:180-187 | every extension has three letters |
| ItemTypes.FormatNamesDistinct | src/clipboard/types.rs:171-187 | distinct formats have distinct extensions and distinct MIME types |
| ItemTypes.DefaultSearchFilter | src/clipboard/types.rs:198-207 | empty query, no type, not favourites-only, no date range |
| Rows.MaxId | src/storage/database.rs:227-240 | the largest rowid present bounds every id, and is one of them |
| Rows.NextId | src/storage/database.rs:134 | the AUTOINCREMENT id is positive, above the high-water mark and above every id in the table |
| Rows.AppendKeepsUnique | src/storage/database.rs:184-192 | appending a row whose key is new keeps that key unique |
| Rows.EncodeRow | src/storage/database.rs:196-240 | a text row sets `content_text` and leaves the image columns NULL; an image row sets data, width, height and format tag and leaves `content_text` NULL; the scalar columns copy the item |
| Rows.Keep | src/storage/database.rs:306-316 | a DELETE keeps exactly the rows its condition spares, and never grows the table |
| Rows.KeepMultiset | src/storage/database.rs:306-316 | a DELETE keeps every copy of a spared row and no copy of a removed one |
| Rows.KeepKeepsUnique | src/storage/database.rs:138 | deleting rows never breaks a uniqueness constraint |
| Rows.DeleteById | src/storage/database.rs:306-310 | removes exactly the rows with that id, and is a no-op for an unknown id |
| Rows.KeepAll | src/storage/database.rs:306-316 | a DELETE that spares every row leaves the table as it was |
| Rows.TouchById | src/storage/database.rs:318-325 | the row with that id gets the new `accessed_at` and one more access; every other row is unchanged |
| Rows.SetFavoriteById | src/storage/database.rs:327-334 | only the favourite flag of the row with that id changes |
| Rows.PointUpdatesKeepKeys | src/storage/database.rs:318-334 | both point updates keep ids and hashes, and are no-ops for an unknown id |
| Rows.InsertNewest | src/storage/database.rs:291 | inserting a row into a sorted run adds exactly that row |
| Rows.InsertNewestSorted | src/storage/database.rs:291 | the insertion keeps a run sorted by `created_at`, newest first |
| Rows.SortNewestFirst | src/storage/database.rs:291 | `ORDER BY created_at DESC` gives a permutation of the rows, newest first |
| Rows.InsertNewestKeepsUnique | src/storage/database.rs:291 | inserting a row with a new key keeps keys unique |
| Rows.SortKeepsUnique | src/storage/database.rs:291 | sorting keeps keys unique |
| Rows.TopByIds | src/storage/database.rs:355-358 | with unique ids, the rows whose ids the sub-select picks are exactly the first k of the ordered table |
| Rows.KeptAreTop | src/storage/database.rs:352-361 | as a multiset, the rows eviction keeps are the first k rows of the ordered table |
| Rows.KeptCounts | src/storage/database.rs:352-361 | a row's multiplicity after eviction is its multiplicity among the first k ordered rows |
| Rows.KeptCountAt | src/storage/database.rs:352-361 | the same fact for one given row |
| Rows.KeptNotOlder | src/storage/database.rs:352-361 | every kept row is at least as new as every removed one |
| Rows.KeepNewestSpec | src/storage/database.rs:352-361 | eviction keeps exactly min(n, k) rows, all taken from the table |
| Search.FoldAscii | src/storage/database.rs:272 | LIKE folds only the ASCII capitals |
| Search.LikePercent | src/storage/database.rs:272 | a leading `%` matches exactly when the rest matches some suffix |
| Search.LikeLiteral | src/storage/database.rs:272 | a wildcard-free prefix must match the text's prefix up to ASCII case |
| Search.LikeAnything | src/storage/database.rs:272 | `%` matches every text |
| Search.LikeSuffix | src/storage/database.rs:272 | `q%` matches a suffix exactly when `q` occurs at its start |
| Search.LikeContains | src/storage/database.rs:270-273 | for a query without wildcards, `LIKE '%q%'` holds exactly when the text contains `q` up to ASCII case |
| Search.KeepExtensional | src/storage/database.rs:270-288 | two equivalent WHERE clauses select the same rows |
| Search.Select | src/storage/database.rs:266-288 | selects exactly the rows that satisfy every active restriction |
| Search.SelectDefault | src/clipboard/types.rs:198-207 | the default filter selects every row |
| Search.ImageRowsNeverMatchQuery | src/storage/database.rs:270-273 | an image row, whose `content_text` is NULL, never matches a non-empty query |
| Search.TextSearchFindsSubstrings | src/storage/database.rs:270-273 | a text row matches a wildcard-free query exactly when its text contains the query and its type and favourite restrictions hold |
| Search.WindowStart | src/storage/database.rs:291-293 | a negative OFFSET counts as zero, and the window starts within the result |
| Search.Window | src/storage/database.rs:291-293 | skips the offset and keeps at most `limit` rows; a negative LIMIT keeps them all |
| Search.WindowOfSorted | src/storage/database.rs:291-293 | a window of a sorted result is sorted and holds only rows of that result |
| Search.Query | src/storage/database.rs:258-304 | the rows `get_items` reads all satisfy the filter and run newest first; there are at most `limit` of them, and exactly as many as the window over the matches allows |
| Search.FirstPageIsNewest | src/storage/database.rs:258-304 | no matching row left off the first page is newer than a row on it |
| Search.QueryFirstPage | src/storage/database.rs:291-293 | without an offset the result is a prefix of the ordered matches |
| Search.PrefixIsNewest | src/storage/database.rs:291 | in a newest-first run, a row of a prefix is at least as new as any row after the prefix |
| Search.QueryIgnoresDateRange | src/storage/database.rs:266-293 | the filter's date range never changes the result |
| RowDecode.DecodeContentType | src/storage/models.rs:8-13 | "image" decodes to Image and every other tag to Text |
| RowDecode.DecodeImageFormat | src/storage/models.rs:32-38 | the four known tags decode to their formats; every other tag decodes to PNG |
| RowDecode.TagsRoundTrip | src/storage/models.rs:8-38 | the tags `insert_item` writes decode to the type and format they came from |
| RowDecode.RowText | src/storage/models.rs:18-23 | prefers `content_text`, then the legacy `content` column, then "" |
| RowDecode.DecodeContent | src/storage/models.rs:15-42 | a text tag always decodes; an image row decodes exactly when data, width, height and format are all present, and otherwise names the missing column |
| RowDecode.FromRow | src/storage/models.rs:7-56 | succeeds exactly when the content decodes; the item gets `id = Some(row id)` and copies hash, size, both timestamps, access count and favourite flag |
| RowDecode.DecodeEncode | src/storage/models.rs:7-56 | decoding an encoded item gives the item back, with the id the table assigned |
| RowDecode.WellFormedItemsRoundTrip | src/storage/models.rs:7-56 | every well-formed item survives the store-and-read round trip |
| Schema.DeleteKeepsValid | src/storage/database.rs:306-316 | deleting rows keeps the table's invariants |
| Schema.Backfill | src/storage/database.rs:100-104 | writes the legacy `content` into `content_text` only where `content_text` is NULL, changing nothing else |
| Schema.BackfillAll | src/storage/database.rs:100-104 | the backfill applied row by row |
| Schema.Migrate | src/storage/database.rs:48-176 | version 0 with no table creates the version 1 schema; version 0 with a legacy table adds the missing columns and, if `content` exists, backfills; any other version changes nothing |
| Schema.MigrateKeepsData | src/storage/database.rs:61-127 | migration never drops a column or a row, and keeps every row's id, hash, timestamps and legacy content |
| Schema.MigrateKeepsValid | src/storage/database.rs:48-176 | migration keeps the table's invariants, and with them hash uniqueness |
| Schema.MigrateIdempotent | src/storage/database.rs:48-60 | migrating twice is migrating once |
| Schema.BackfillDecodesAlike | src/storage/models.rs:18-23 | a legacy row decodes to the same item before and after the backfill |
| Store.DecodeAll | src/storage/database.rs:295-303 | the rows decode exactly when each row does; the first failing row's message is the error |
| Store.DecodeAllErrExtends | src/storage/database.rs:299-302 | once a prefix fails to decode, the whole result fails with the same error |
| Store.DecodedOrder | src/storage/database.rs:291-302 | a newest-first result set decodes to newest-first items |
| Store.DecodeRows | src/storage/database.rs:299-302 | the collecting loop computes `DecodeAll` of the selected rows |
| Store.AppendKeepsValid | src/storage/database.rs:227-240 | appending the encoded item under the next id keeps the table valid, and keeps hashes unique when the hash is new |
| Store.Database.Open | src/storage/database.rs:13-46 | opening migrates the disk state; hash uniqueness survives, and a database without a table opens empty |
| Store.Database.ItemExists | src/storage/database.rs:340-350 | reports whether some row carries the hash, or the error when the table is missing |
| Store.Database.InsertItem | src/storage/database.rs:178-256 | a duplicate hash gives `Config("Content already exists")` and leaves every row unchanged; otherwise the row is appended under a fresh id above every earlier one, then evicted down to at most 1000 rows; hash uniqueness is kept |
| Store.Database.GetItems | src/storage/database.rs:258-304 | returns the decoded `Query` result: rows that match, newest first, at most `limit`; errors on a missing table or a missing `content_text` column |
| Store.Database.DeleteItem | src/storage/database.rs:306-310 | the table becomes `DeleteById` of the old rows; hash uniqueness is kept |
| Store.Database.ClearAll | src/storage/database.rs:312-316 | the table is emptied; the AUTOINCREMENT mark survives |
| Store.Database.UpdateAccess | src/storage/database.rs:318-325 | the table becomes `TouchById` of the old rows; hash uniqueness is kept |
| Store.Database.UpdateFavorite | src/storage/database.rs:327-334 | the table becomes `SetFavoriteById` of the old rows; hash uniqueness is kept |
| Store.Database.CleanupOldItems | src/storage/database.rs:352-361 | keeps the newest `max_items` rows, exactly min(n, max_items) of them; hash uniqueness is kept |
| Store.Database.CleanupWithLimit | src/storage/database.rs:336-338 | the same effect as `cleanup_old_items` |
| Store.Database.GetItemCount | src/storage/database.rs:363-368 | the number of rows, or the error when the table is missing |
| Monitor.DetectImageFormat | src/clipboard/monitor.rs:131-157 | buffers under 8 bytes are never classified; a reported format's signature is present |
| Monitor.SignatureFirstByte | src/clipboard/monitor.rs:136-153 | each signature fixes a different first byte, so the four checks are mutually exclusive |
| Monitor.DetectIff | src/clipboard/monitor.rs:131-157 | the format is `f` exactly when the buffer has at least 8 bytes and carries `f`'s signature |
| Monitor.ShortBuffersUnclassified | src/clipboard/monitor.rs:132-134 | the 3-byte JPEG and 2-byte BMP signatures alone are not classified |
| Monitor.ImageHashIsItemHash | src/clipboard/monitor.rs:125-129 | the loop's image hash is the hash of the image item built from the same bytes |
| Monitor.TextStepSpec | src/clipboard/monitor.rs:57-79 | the text half sends exactly when the read succeeded, the text differs from the last one, is not blank and its send succeeds; it then tracks (text, no image); a failed send of such a text stops the loop, and nothing else does |
| Monitor.ImageStepSpec | src/clipboard/monitor.rs:82-108 | the image half sends exactly when the hash changed, a format is detected and its send succeeds; it then tracks (no text, the hash); a failed send of such an image stops the loop, and nothing else does; an unrecognised image changes nothing |
| Monitor.TextSentThenImageSendFails | src/clipboard/monitor.rs:57-100 | when the receiver hangs up between the two sends of one poll, the text is delivered and tracked and the failed image send ends the loop |
| Monitor.PollShape | src/clipboard/monitor.rs:53-109 | a poll sends at most a text and then an image, the text stamped with the text instant and the image with the image instant |
| Monitor.PollSplits | src/clipboard/monitor.rs:53-109 | a poll is the text half, then the image half unless the text send failed |
| Monitor.StepsSendFreshItems | src/clipboard/monitor.rs:63-96 | each half sends only fresh, well-formed items, stamped with that half's own instant |
| Monitor.PollSendsFreshItems | src/clipboard/monitor.rs:53-109 | every item a poll sends is fresh and well-formed, and carries the instant of its own kind |
| Monitor.UnrecognisedImageIgnored | src/clipboard/monitor.rs:86-107 | an image without a recognised signature changes nothing and sends nothing |
| Monitor.MonitorLoop | src/clipboard/monitor.rs:51-110 | the loop computes `Run`: polls until a send fails |
| Monitor.TextStepTracks | src/clipboard/monitor.rs:57-79 | the text half never repeats the previous capture, and its trackers remember what it sent |
| Monitor.ImageStepTracks | src/clipboard/monitor.rs:82-108 | the image half never repeats the previous capture, and its trackers remember what it sent |
| Monitor.PollNoRepeats | src/clipboard/monitor.rs:53-109 | one poll never repeats the previous capture |
| Monitor.LastSentJoin | src/clipboard/monitor.rs:53-109 | the last item sent by two stretches of polling is the second stretch's, if it sent any |
| Monitor.NoRepeatsJoin | src/clipboard/monitor.rs:53-109 | two stretches without repeats, the second starting where the first stopped, have no repeats together |
| Monitor.KeepsJoin | src/clipboard/monitor.rs:53-109 | the no-repeat and tracking property composes across consecutive stretches |
| Monitor.RunNoRepeats | src/clipboard/monitor.rs:53-109 | across any run of polls, no item is the same capture as the one sent just before it |
| Monitor.ClipboardMonitor.constructor | src/clipboard/monitor.rs:19-32 | empty baseline, no image hash, not running |
| Monitor.ClipboardMonitor.Start | src/clipboard/monitor.rs:34-113 | when already running: `Ok` and no change. Otherwise: sets running and takes a readable initial text as baseline; fails if the thread's clipboard cannot be opened, and otherwise hands the loop copies of the baseline |
| Monitor.ClipboardMonitor.Stop | src/clipboard/monitor.rs:115-117 | only clears the running flag |
| Monitor.ClipboardMonitor.SetClipboardContent | src/clipboard/monitor.rs:119-123 | updates only the struct's baseline, and only after a successful write |
| Monitor.OwnWriteRecaptured | src/clipboard/monitor.rs:46-123 | a running loop sends the application's own non-blank write again when it differs from the loop's last text |
| Fonts.Classify | src/ui/font_manager.rs:155-192 | never Thai or Devanagari; Latin exactly for ASCII letters and digits |
| Fonts.DetectScript | src/ui/font_manager.rs:148-200 | the flag-guarded loop computes `DetectedScripts` |
| Fonts.ScanMembers | src/ui/font_manager.rs:158-193 | a script is recorded exactly when one of its characters occurs |
| Fonts.ScanNoDuplicates | src/ui/font_manager.rs:150-190 | no script is recorded twice |
| Fonts.ScanOrder | src/ui/font_manager.rs:155-193 | scripts appear in the order of their first characters |
| Fonts.DetectedScriptsSpec | src/ui/font_manager.rs:148-200 | the result is non-empty and repeat-free, never Thai or Devanagari; CJK, Arabic and Cyrillic appear exactly when a character in their ranges occurs; Latin appears exactly when an ASCII letter or digit occurs or nothing was classified |
| Fonts.FontsForScript | src/ui/font_manager.rs:203-236 | every script has a non-empty list |
| Fonts.FontsForScriptShared | src/ui/font_manager.rs:203-236 | Latin, Thai and Devanagari share one list; CJK, Arabic and Cyrillic each differ from it |
| Fonts.DefaultFontPreferences | src/ui/font_manager.rs:35-89 | the platform's families followed by "Arial", "Helvetica", "sans-serif" |
| Fonts.FontManager.constructor | src/ui/font_manager.rs:25-32 | starts with the default preferences |
| Fonts.FontManager.SetPreferredFonts | src/ui/font_manager.rs:239-242 | the preferences become exactly the given list |
| Fonts.FontManager.GetPreferredFonts | src/ui/font_manager.rs:245-247 | returns the current preferences, so it reads back what was set |
| Theme.Toggled | src/ui/theme.rs:54-71 | Light goes to Dark, Dark to Light, and System to the opposite of the system's preference; never System |
| Theme.ToggleFlipsAppearance | src/ui/theme.rs:54-71 | toggling always flips what the user sees |
| Theme.ToggleTwice | src/ui/theme.rs:54-71 | two toggles from Light or Dark come back; from System they land on the mode the system already shows |
| Theme.NamesAndIconsDistinct | src/ui/theme.rs:118-132 | each mode has its own name and its own icon |
| Theme.ThemeManager.constructor | src/ui/theme.rs:9-13 | copies the configured mode |
| Theme.ThemeManager.Default | src/ui/theme.rs:135-141 | starts in System |
| Theme.ThemeManager.SetTheme | src/ui/theme.rs:44-48 | the mode becomes the given one |
| Theme.ThemeManager.GetCurrentMode | src/ui/theme.rs:50-52 | returns the current mode |
| Theme.ThemeManager.ToggleTheme | src/ui/theme.rs:54-71 | switches to `Toggled` of the old mode and returns it; never System; the appearance flips |
| Theme.ThemeManager.GetThemeName | src/ui/theme.rs:126-132 | the mode's name, one of "Light", "Dark", "System" |
| Theme.ThemeManager.GetThemeIcon | src/ui/theme.rs:118-124 | the mode's icon |
| Settings.DefaultThemeMode | src/config/settings.rs:71-75 | System |
| Settings.DefaultThemeConfig | src/config/settings.rs:63-69 | the default mode |
| Settings.DefaultFontConfig | src/config/settings.rs:77-97 | the platform's family followed by "Arial Unicode MS" and "DejaVu Sans"; size 14; fallback and detection on |
| Settings.DefaultWindowConfig | src/config/settings.rs:99-108 | 600 by 500, not on top, not minimised |
| Settings.DefaultAppConfig | src/config/settings.rs:48-61 | 100 items of at most 1048576 bytes, no auto start, notifications on, hotkey "Ctrl+Shift+V", and the default window, theme and font |
| Settings.Upgrade | src/config/settings.rs:204-212 | keeps every field of the old format and fills `theme` and `font` with defaults |
| Settings.MigrateOldConfig | src/config/settings.rs:188-217 | succeeds exactly when the text parses in the old format, giving its upgrade |
| Settings.MigrationKeepsOldSettings | src/config/settings.rs:204-212 | an old file's settings all survive migration, and the theme becomes System |
| Settings.SaveSpec | src/config/settings.rs:160-171 | saving writes the rendered config exactly when the directory can be located and written, and changes nothing otherwise |
| Settings.LoadCurrentFormat | src/config/settings.rs:118-122 | a file in the current format is returned as parsed, and nothing is written |
| Settings.LoadOldFormat | src/config/settings.rs:128-134 | a file only the old parser accepts is upgraded, and the upgrade is saved |
| Settings.LoadUnparsable | src/config/settings.rs:135-147 | an unparsable file is backed up and replaced by the saved defaults |
| Settings.LoadMissingFile | src/config/settings.rs:151-157 | without a file the defaults are saved and returned |
| Settings.LoadStable | src/config/settings.rs:111-158 | when the renderer and the parser agree on the loaded config, loading a second time gives the same result and writes nothing |
| Settings.ConfigFiles.constructor | src/config/settings.rs:173-179 | the directory as given |
| Settings.ConfigFiles.Save | src/config/settings.rs:160-171 | the directory and outcome are `SaveSpec`'s |
| Settings.ConfigFiles.Load | src/config/settings.rs:111-158 | the directory and outcome are `LoadSpec`'s |
| Locale.DefaultLanguage | src/i18n/mod.rs:17-21 | English |
| Localization.Lookup | src/i18n/mod.rs:100-105 | the current language's entry for the key, or "[MISSING TEXT]" when there is none |
| Localization.LoadedNeverMissing | src/i18n/mod.rs:100-115 | with both tables loaded, no key in either language gives the placeholder |
| Localization.I18n.constructor | src/i18n/mod.rs:82-90 | English, with both tables loaded |
| Localization.I18n.LoadTexts | src/i18n/mod.rs:107-115 | files the English and the Chinese table under their languages |
| Localization.I18n.SetLanguage | src/i18n/mod.rs:92-94 | the language becomes the given one; the tables are unchanged |
| Localization.I18n.GetLanguage | src/i18n/mod.rs:96-98 | returns the current language, so it reads back what was set |
| Localization.I18n.Text | src/i18n/mod.rs:100-105 | the lookup in the current language, never the placeholder once both tables are loaded |
| Localization.GlobalI18n.constructor | src/i18n/mod.rs:125-126 | nothing initialised |
| Localization.GlobalI18n.Init | src/i18n/mod.rs:129-136 | idempotent: the first call creates an English instance, and later calls keep the existing one |
| Localization.GlobalI18n.T | src/i18n/mod.rs:139-150 | initialises if needed, then gives the real text for the key in the instance's language |
| Localization.GlobalI18n.SetLanguage | src/i18n/mod.rs:153-163 | initialises if needed, then switches the instance's language |
| Localization.GlobalI18n.GetLanguage | src/i18n/mod.rs:166-177 | initialises if needed; English on first use, otherwise the instance's language |
| Texts.BuildTable | src/i18n/texts.rs:7-65 | the insert loop builds the map of its inserts |
| Texts.BuildKeys | src/i18n/texts.rs:7-65 | a key is in the built map exactly when some insert names it |
| Texts.BuildLookup | src/i18n/texts.rs:7-65 | without repeated keys, every insert's text is what the map holds for its key |
| Texts.BuildSize | src/i18n/texts.rs:7-65 | without repeated keys, the map has one entry per insert |
| Texts.EnglishDistinct | src/i18n/texts.rs:7-65 | the English table inserts no key twice and has 32 entries |
| Texts.EnglishComplete | src/i18n/texts.rs:7-65 | every `TextKey` has a real English text |
| Texts.ChineseDistinct | src/i18n/texts.rs:68-123 | the Chinese table inserts no key twice and has 32 entries |
| Texts.ChineseComplete | src/i18n/texts.rs:68-123 | every `TextKey` has a real Chinese text |
| Texts.SharedTexts | src/i18n/texts.rs:7-123 | both tables say "ClipManager v0.1.0" and "%H:%M:%S"; the English duplicate text is the store's duplicate message |

## Left out

- handler.rs: the thread that forwards items from the channel into the store is only `thread::spawn`, an `mpsc` channel and forwarding calls. It is not part of this model.
- The monitor's `thread::spawn`, its 500 ms sleep and the `arboard` calls are not modelled. What each clipboard read returns, and whether a send succeeds, are inputs to the poll step, and `MonitorLoop` runs over a finite sequence of polls.
- Store.Database.Open: failures of the database engine are not modelled. `Connection::open` failing, or any migration statement failing on I/O, locking, or a read-only or full database, would make `new` return an error; the model's `Open` always succeeds.
- Engine-level failures of the other store statements are not modelled either; those operations fail only on the conditions their contracts name, such as a missing table or column, a duplicate hash or a row that does not decode.
- SQL text, indexes, `rusqlite` row plumbing and the separate lock acquisitions are not modelled. Each statement is its effect on the modelled table.
- `DATETIME` values are integers ordered as integers. `Utc::now` is an argument.
- Rows with equal `created_at` come back in table order. SQLite leaves this order open, and the model fixes it with a stable sort.
- Legacy tables are assumed to carry the base columns and to be AUTOINCREMENT tables. The legacy schema of the old version is not part of this model.
- The messages of `rusqlite`, `arboard` and I/O errors are not modelled; each error carries a fixed message.
- A partial effect of `create_dir_all` (a directory created before a failed write) is not modelled.
- `ImageData::size_mb` is floating-point arithmetic and is not modelled; the font size and window size are carried as `real` and only copied.
- The `font_kit` system font source, font loading and the font cache are not modelled. `FontManager` keeps only its preference list.
- System theme detection (environment variables and `gsettings`) is the `systemDark` argument. `apply_theme` and `apply_custom_style` draw with egui and are not modelled.
- TOML (de)serialisation and the `directories` lookup are the `Toml` and `ConfigDir` inputs.
- The "[I18N NOT INITIALIZED]" fallback of `t` and `get_language` cannot be reached, because both call `init` first. The model has no branch for it.
- ItemTypes.UpdateAccess: the `&mut self` update is a function returning the updated item, and `access_count += 1` wraps at 2^32 (the release-build behaviour; a debug build panics instead).
- The egui interface (`main_window.rs`, `settings_window.rs`), `app.rs`, `main.rs`, the logging set-up in `lib.rs` and the benchmarks are not part of this model.
