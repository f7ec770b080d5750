# QRScanner decision logic in Dafny

This project models the small pieces of sequential decision logic in the
QRScanner Android app and proves properties about them. The camera, ML Kit,
ZXing, Room and the view layer are not modelled. Their results appear as
inputs instead.

- **Theme preferences** (`ThemeManager`, `Application`, `Settings`). The state
  is the default shared-preferences map plus AppCompatDelegate's default night
  mode. The model covers decoding and encoding the `"theme_mode"` string,
  set / apply / apply-saved, toggle, `isDarkMode` and the colour pick. It also
  covers the start-up sequence in `QRScannerApplication.onCreate` and the
  mapping between modes and radio buttons in the settings screen.
- **Scan capture and history** (`ScanRecord`, `ScanDao`, `Capture`). The model
  covers the per-frame decision of `QRAnalyzer.analyze` and the camera
  permission gate. The `scans` table is an abstract store: `insert` gives a
  fresh id, and `getAll` may return any newest-first permutation of the rows.
- **QR bitmap** (`Generate`). The model covers the empty-input guard of the
  generate button and the nested 512×512 loop that colours each pixel BLACK or
  WHITE from the encoder's bit matrix.

Modules: `Wrappers` (Option, Result), `ThemeManager`, `Application`,
`Settings`, `ScanRecord`, `ScanDao`, `Capture`, `Generate`. There is one file
per module.

Consequences the proofs make explicit:
- Right after `setThemeMode(SYSTEM)`, `isDarkMode` is false. The stored night
  mode is then FOLLOW_SYSTEM, and `isDarkMode` only checks it against YES
  (`ThemeManager.IsDarkAfterSet`, `Application.OnCreateSystemNeverDark`).
- Start-up normalises an unknown or missing stored value to `"system"`. Running
  start-up twice gives the same state as running it once.
- A frame whose `image` is null is neither decoded nor closed.
- Every non-null raw value is inserted, including the empty string and repeats
  of a value. There is no deduplication within a frame or across frames.

Where the code differs from its own comments, the model follows the code:
- The timestamp is read from the clock when the `Scan` is constructed
  (data/model/Scan.kt:10). The insert does not assign it, although the KDoc of
  `ScanDao.insert` (data/dao/ScanDao.kt:27-29) suggests it does.

Two further facts about the code shape the model:
- The query orders by timestamp only (data/dao/ScanDao.kt:49). Rows with equal
  timestamps have no defined order, so the history lemmas hold for every
  admissible listing (`ScanDao.IsListing`). `ScanDao.TiesUnordered` shows that
  both orders of a tie are admissible.
- Only null raw values are skipped (ui/MainActivity.kt:219). An empty decoded
  string is stored.

Room's `@Insert` on an `autoGenerate` key stores the default id 0 as "assign
one". It takes the next AUTOINCREMENT value, so ids are never reused. An
explicit id already in use fails with the default ABORT strategy. `Store.lastId`
models the AUTOINCREMENT counter.

## Model

| member | source | states |
|---|---|---|
| `ThemeManager.ParseTheme` | app/src/main/java/com/myprojects/qrscanner/utils/ThemeManager.kt:56-60 | only the exact strings "light" and "dark" are recognised; "system" and every other string decode to SYSTEM, and a canonical string decodes to the mode it spells |
| `ThemeManager.GetThemeMode` | app/src/main/java/com/myprojects/qrscanner/utils/ThemeManager.kt:54-63 | the mode is LIGHT iff "light" is stored and DARK iff "dark" is stored; an absent key reads as SYSTEM |
| `ThemeManager.ApplyTheme` | app/src/main/java/com/myprojects/qrscanner/utils/ThemeManager.kt:88-96 | preferences untouched; night mode is NO iff LIGHT, YES iff DARK, FOLLOW_SYSTEM iff SYSTEM |
| `ThemeManager.SetThemeMode` | app/src/main/java/com/myprojects/qrscanner/utils/ThemeManager.kt:71-81 | the mode reads back as set; only the "theme_mode" entry changes, every other key keeps its value; the night mode is the mode's mapping |
| `ThemeManager.ApplySavedTheme` | app/src/main/java/com/myprojects/qrscanner/utils/ThemeManager.kt:103-106 | preferences untouched; night mode becomes the mapping of the stored mode |
| `ThemeManager.IsDarkMode` | app/src/main/java/com/myprojects/qrscanner/utils/ThemeManager.kt:114-126 | DARK is dark, LIGHT is not, SYSTEM is dark iff the default night mode is YES |
| `ThemeManager.ToggleTheme` | app/src/main/java/com/myprojects/qrscanner/utils/ThemeManager.kt:134-143 | LIGHT goes to DARK, DARK and SYSTEM go to LIGHT, the result is never SYSTEM, and the new state is a setThemeMode of it |
| `ThemeManager.GetThemeColor` | app/src/main/java/com/myprojects/qrscanner/utils/ThemeManager.kt:189-195 | the dark resource for DARK, the light one for LIGHT, and for SYSTEM the dark one iff the night mode is YES |
| `ThemeManager.CodecRoundTrip` | app/src/main/java/com/myprojects/qrscanner/utils/ThemeManager.kt:54-76 | decoding the string written for any of the three modes gives that mode back |
| `ThemeManager.ThemeStringInjective` | app/src/main/java/com/myprojects/qrscanner/utils/ThemeManager.kt:72-76 | distinct modes are written as distinct strings |
| `ThemeManager.IsDarkAfterSet` | app/src/main/java/com/myprojects/qrscanner/utils/ThemeManager.kt:80-121 | right after setThemeMode(m), isDarkMode holds iff m is DARK; in particular never after selecting SYSTEM |
| `ThemeManager.ToggleTwice` | app/src/main/java/com/myprojects/qrscanner/utils/ThemeManager.kt:134-142 | from LIGHT or DARK two toggles restore the mode, and the state equals re-setting that mode |
| `ThemeManager.ToggleTwiceFromSystem` | app/src/main/java/com/myprojects/qrscanner/utils/ThemeManager.kt:134-142 | from SYSTEM two toggles end in DARK |
| `ThemeManager.IsDarkAfterToggle` | app/src/main/java/com/myprojects/qrscanner/utils/ThemeManager.kt:114-142 | after a toggle the app is dark iff the mode stored before was LIGHT |
| `ThemeManager.ThemeColorFollowsDarkMode` | app/src/main/java/com/myprojects/qrscanner/utils/ThemeManager.kt:189-195 | for two different resources, the dark one is picked iff isDarkMode holds |
| `ThemeManager.SetOverrides` | app/src/main/java/com/myprojects/qrscanner/utils/ThemeManager.kt:71-81 | two successive sets leave the same state as the second alone |
| `Application.OnCreate` | app/src/main/java/com/myprojects/qrscanner/QRScannerApplication.kt:18-30 | start-up keeps the decoded mode, stores its canonical string, sets its night mode and leaves other keys alone |
| `Application.OnCreateNormalisesUnknown` | app/src/main/java/com/myprojects/qrscanner/QRScannerApplication.kt:22-29 | an unknown or absent stored value becomes "system" with night mode FOLLOW_SYSTEM |
| `Application.OnCreateIdempotent` | app/src/main/java/com/myprojects/qrscanner/QRScannerApplication.kt:22-29 | running start-up twice gives the same state as once |
| `Application.OnCreateSystemNeverDark` | app/src/main/java/com/myprojects/qrscanner/QRScannerApplication.kt:26-29 | after start-up with SYSTEM stored, isDarkMode is false |
| `Settings.RadioFor` | app/src/main/java/com/myprojects/qrscanner/ui/SettingsActivity.kt:136-140 | each mode checks one of the three buttons, and that button selects the mode back |
| `Settings.ModeForRadio` | app/src/main/java/com/myprojects/qrscanner/ui/SettingsActivity.kt:144-149 | any id other than the three buttons selects SYSTEM |
| `Settings.CheckedOnEntry` | app/src/main/java/com/myprojects/qrscanner/ui/SettingsActivity.kt:133-140 | on entry the checked button is one of the three and is the one for the stored mode |
| `Settings.OnThemeChecked` | app/src/main/java/com/myprojects/qrscanner/ui/SettingsActivity.kt:143-153 | after a selection the stored mode is the selected one, the night mode matches it, re-entering checks the same button, and other keys are kept |
| `Settings.RadioRoundTrip` | app/src/main/java/com/myprojects/qrscanner/ui/SettingsActivity.kt:136-149 | mode to button to mode is the identity, and so is button to mode to button for the three buttons |
| `ScanDao.Insert` | app/src/main/java/com/myprojects/qrscanner/data/dao/ScanDao.kt:36-37 | exactly one row is appended and existing rows are unchanged; content and timestamp are kept; an auto id is fresh and above every stored id; an explicit id in use fails |
| `ScanDao.InsertNewScan` | app/src/main/java/com/myprojects/qrscanner/data/model/Scan.kt:7-11 | a scan built with the default id never fails on the primary key, receives an id no stored row has, and keeps the construction timestamp |
| `ScanDao.DistinctIdsOccurOnce` | app/src/main/java/com/myprojects/qrscanner/data/model/Scan.kt:8 | with pairwise distinct primary keys every stored scan occurs exactly once |
| `ScanDao.InsertNewestFirst` | app/src/main/java/com/myprojects/qrscanner/data/dao/ScanDao.kt:49 | placing a scan into a newest-first list keeps it newest first and adds exactly that scan |
| `ScanDao.SortNewestFirst` | app/src/main/java/com/myprojects/qrscanner/data/dao/ScanDao.kt:49 | the result is a permutation of the rows ordered by timestamp, newest first |
| `ScanDao.GetAll` | app/src/main/java/com/myprojects/qrscanner/data/dao/ScanDao.kt:49-50 | getAll returns an admissible listing with one entry per stored row |
| `ScanDao.ListingOfEmpty` | app/src/main/java/com/myprojects/qrscanner/data/dao/ScanDao.kt:46-50 | the empty table lists as the empty sequence |
| `ScanDao.ListingHasEachOnce` | app/src/main/java/com/myprojects/qrscanner/data/dao/ScanDao.kt:49 | a listing of a valid table holds every stored scan exactly once and nothing else |
| `ScanDao.ListingAfterInsert` | app/src/main/java/com/myprojects/qrscanner/data/dao/ScanDao.kt:36-50 | after an insert every listing is one longer, keeps all earlier rows and holds a record with the inserted content and timestamp |
| `ScanDao.NewestInsertListedFirst` | app/src/main/java/com/myprojects/qrscanner/data/dao/ScanDao.kt:49 | a scan strictly newer than all stored ones is listed first after its insert |
| `ScanDao.TiesUnordered` | app/src/main/java/com/myprojects/qrscanner/data/dao/ScanDao.kt:49 | two scans with the same timestamp may be listed in either order |
| `Capture.RawValues` | app/src/main/java/com/myprojects/qrscanner/ui/MainActivity.kt:217-219 | the kept raw values are never more than the barcodes |
| `Capture.Analyze` | app/src/main/java/com/myprojects/qrscanner/ui/MainActivity.kt:210-237 | a null image inserts nothing and is not closed; otherwise the frame is closed exactly once; a failed decode inserts nothing; a success inserts one default-id scan per non-null raw value, in order, with that value as content |
| `Capture.AnalyzeClosing` | app/src/main/java/com/myprojects/qrscanner/ui/MainActivity.kt:210-237 | the corrected analyzer closes every frame once and inserts the same scans |
| `Capture.NullImageLeftOpen` | app/src/main/java/com/myprojects/qrscanner/ui/MainActivity.kt:211-236 | a frame with a null image and a readable code is left unclosed as written, and closed by the corrected analyzer |
| `Capture.RawValuesAppend` | app/src/main/java/com/myprojects/qrscanner/ui/MainActivity.kt:217-221 | the raw values of concatenated barcode lists are the concatenation of their raw values, so barcode order is kept |
| `Capture.RawValuesCount` | app/src/main/java/com/myprojects/qrscanner/ui/MainActivity.kt:217-221 | every value is kept exactly as often as barcodes carry it, so nothing is deduplicated or invented |
| `Capture.AllNullInsertsNothing` | app/src/main/java/com/myprojects/qrscanner/ui/MainActivity.kt:218-219 | barcodes whose raw values are all null insert nothing |
| `Capture.NoNullKeepsAll` | app/src/main/java/com/myprojects/qrscanner/ui/MainActivity.kt:217-221 | without null raw values every barcode's value is kept at its own position |
| `Capture.InsertAll` | app/src/main/java/com/myprojects/qrscanner/ui/MainActivity.kt:220-221 | inserting default-id scans appends one row each with their contents and timestamps, keeps earlier rows, keeps the table valid and hands out increasing ids |
| `Capture.RecordFrame` | app/src/main/java/com/myprojects/qrscanner/ui/MainActivity.kt:210-237 | a frame adds exactly as many rows as the analyzer produced and keeps earlier rows and validity |
| `Capture.RepeatedFramesInsertTwice` | app/src/main/java/com/myprojects/qrscanner/ui/MainActivity.kt:217-221 | the same decoded frame seen twice adds its values twice |
| `Capture.StartsCamera` | app/src/main/java/com/myprojects/qrscanner/ui/MainActivity.kt:258-262 | the camera starts iff the request code is 101 and a first result exists and is granted |
| `Capture.CameraGateOutcomes` | app/src/main/java/com/myprojects/qrscanner/ui/MainActivity.kt:258-262 | for the camera request, a granted first result starts the camera, while a denied first result or an empty answer does not |
| `Generate.RequestFor` | app/src/main/java/com/myprojects/qrscanner/ui/GenerateActivity.kt:163-169 | empty text makes no request; other text is encoded as QR_CODE with exactly that text at 512×512 |
| `Generate.BlankPixels` | app/src/main/java/com/myprojects/qrscanner/ui/GenerateActivity.kt:210 | a freshly created bitmap is 512 columns of 512 unwritten pixels |
| `Generate.FillBitmap` | app/src/main/java/com/myprojects/qrscanner/ui/GenerateActivity.kt:206-218 | the bitmap is 512×512, pixel (x, y) is BLACK iff matrix cell (x, y) is set, and every pixel is BLACK or WHITE, so every pixel was written |
| `Generate.OnGenerateClick` | app/src/main/java/com/myprojects/qrscanner/ui/GenerateActivity.kt:162-170 | empty text leaves the screen unchanged; an encoder failure is reported; otherwise the displayed bitmap is the 512×512 rendering of the matrix encoded for exactly that text |

## Left out

- Camera binding, ML Kit decoding and ZXing encoding are external libraries. A frame carries its decode outcome, and `Generate.OnGenerateClick` takes the encoder as a function. The encoder is assumed to return a matrix covering the requested size, as QRCodeWriter does.
- `Capture.Analyze` takes one clock reading `now` for all scans of a frame. The source reads `System.currentTimeMillis()` once per `Scan` construction, so scans of one frame may differ by a few milliseconds.
- The clock is a parameter everywhere. `System.currentTimeMillis()` is not modelled.
- Kotlin `Int` ids and `Long` timestamps are unbounded integers here. An overflow of the 32-bit id or of SQLite's 64-bit AUTOINCREMENT counter is not modelled.
- `ScanViewModel` is a coroutine launch wrapper around `insert`. LiveData delivery of `getAll` is asynchronous. Neither is modelled: inserts apply in order and each query sees the latest table.
- The `AppDatabase` singleton is lock-based concurrency and is not modelled. SQL is not re-implemented: the table is an abstract sequence of rows.
- The order in which the success, failure and complete listeners run is collapsed into one outcome per frame.
- Toasts, logging, bottom navigation, Intents, `recreateActivity`, `restartApp` and `updateUIColors` are platform effects and are not modelled. `applyThemeAndRecreate` is modelled by its persisting part only: `Settings.OnThemeChecked` calls `SetThemeMode`.
- `ContextCompat.getColor` resolves a resource id to a colour. `ThemeManager.GetThemeColor` returns the chosen resource id instead.
- The bitmap's RGB_565 storage is not modelled. Pixels hold the ARGB ints passed to `setPixel`.
- `HistoryActivity` and `ScanAdapter` only display data. `Theme.kt`, `Color.kt`, `Type.kt`, `QRUtils` and `build.gradle.kts` are styling, placeholders or build configuration. The unused duplicates `data/ScanDao.kt` and `data/Scan.kt` are also not modelled.
- `ScanDao.Insert`: database I/O failures (a `SQLiteException`, for instance a full disk) are not modelled. The only failure is the primary-key conflict. In the source such an exception is not caught and escapes the coroutine launched by the view model.
- `Capture.RawValues`: its own contract states only a length bound. Order and multiplicity are stated by `Capture.RawValuesAppend`, `Capture.RawValuesCount` and `Capture.NoNullKeepsAll`.

## Findings

| source | as written | input that shows it | evidently intended | confidence | as-written member | corrected member |
|---|---|---|---|---|---|---|
| app/src/main/java/com/myprojects/qrscanner/ui/MainActivity.kt:211-236 | `imageProxy.close()` is only reached inside the branch where `imageProxy.image` is non-null | a frame whose `image` is null: it is returned without being closed, and the analysis stream stalls waiting for it | close the frame on every path, as the success and failure paths already do | medium, not executed | `Capture.Analyze` (`Capture.NullImageLeftOpen`) | `Capture.AnalyzeClosing` (used by `Capture.RecordFrame`) |
