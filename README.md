# Field-visit reports: a verified model of the report pipeline's core

The backend records technicians' visits to clients. For each visit it
receives the visited persons as JSON, plus uploaded photos and signatures.
It saves the uploads to a scratch directory and points each person record
at its saved files. It then lays out a PDF, uploads it to a SharePoint
document library, and e-mails it through Microsoft Graph. Everything is
kept in a small SQLite store.

This project models the decision logic of that pipeline in Dafny and
proves what it promises:

- `Reconcile` (reconcile.dfy, backend/api.py) models the intake.
  - Saving uploads is a `ScratchDir` class whose methods grow the set of files on disk.
  - The mapping loop edits an `array` of person records in place. It is proved against the specification function `MapAll`.
  - Cleanup removes listed files one by one.
- `Layout` (layout.dfy, backend/pdf_generator.py) models the rules of the PDF:
  - the task text split into bullets;
  - the three-column photo grid, a `Canvas` class whose cursor the grid loop moves;
  - which branch a person's section takes;
  - the cleaned output file name.
- `Graph` (graph.dfy, backend/utils.py) models:
  - the folder-name sanitiser, a loop proved against a function;
  - drive selection, with and without the fallback;
  - the remote paths;
  - the outcome of the upload, backup and mail calls, with the HTTP replies as parameters.
- `Store` (store.dfy, backend/database.py) models the four tables.
  - A `Db` class has one method per mutating statement.
  - The queries are functions over the table contents.
- `Text`, `Json` and `Wrappers` hold the Python and SQLite behaviour the rest relies on:
  - `str.strip`, `split`, `join`, `os.path.basename` and `str.replace`;
  - BINARY collation order;
  - JSON values and their truthiness;
  - `Option`.

## Model

| member | source | states |
|---|---|---|
| Reconcile.SavedPaths | backend/api.py:106-111 | the list of saved paths, one per upload, in upload order; specified by `SavedPathsAt` and `SavedPathsStep` |
| Reconcile.SignatureMap | backend/api.py:114-122 | `rutas_firmas_servidor`, keyed by basename and valued by saved path; specified by `SignatureMapLookup` and `SignatureMapStep` |
| Reconcile.AllWritableIff | backend/api.py:106-110 | the upload-by-upload writability check holds exactly when every upload's basename is writable |
| Reconcile.SavedPathsAt | backend/api.py:107-111 | the n-th saved path is `temp_dir/basename(n-th upload)` |
| Reconcile.SavedPathsStep | backend/api.py:106-112 | saving one more upload appends exactly its own path to the saved list |
| Reconcile.SignatureMapStep | backend/api.py:117-122 | saving one more signature sets (or overwrites) the map entry of its basename and leaves the other entries alone |
| Reconcile.SavedInsideTempDir | backend/api.py:107-108 | an upload's basename holds no `/`, so the file lands directly in the scratch directory under that name |
| Reconcile.SignatureMapLookup | backend/api.py:118-122 | every signature's basename is a key of `rutas_firmas_servidor` and maps to that signature's saved path; no key holds a `/` |
| Reconcile.CleanupList | backend/api.py:153-154 | the PDF path is appended to the cleanup list only when it is non-empty; the earlier entries stay as they were |
| Reconcile.ScratchDir.GuardarFotos | backend/api.py:103-112 | the photos are saved in order; the call succeeds iff every basename is writable; on success the saved paths are exactly `SavedPaths` and the disk gains exactly those files; on failure it gains only some of them |
| Reconcile.ScratchDir.GuardarFirmas | backend/api.py:114-123 | the same for signatures; on success the map is `SignatureMap` and the cleanup list is the saved paths in order |
| Reconcile.ScratchDir.GuardarSubidas | backend/api.py:103-123 | the photos are saved, then the signatures; the cleanup list is the photo paths followed by the signature paths; the disk gains exactly those files on success |
| Reconcile.ScratchDir.EliminarArchivosTemporales | backend/api.py:57-65 | exactly the listed files whose removal does not raise are gone; nothing unlisted is touched; a failure does not stop the loop |
| Reconcile.Strs | backend/api.py:132 | the saved paths become JSON strings, one for one |
| Reconcile.DealPhotos | backend/api.py:128-134 | one person's photo step: the new cursor stays between the old one and the number of saved photos; the photos dealt are specified by `DealtPhotos` |
| Reconcile.ResolveFirma | backend/api.py:136-141 | one person's signature step, defined only where `basename` does not raise; specified by `FirmaResolved` and `ResolveFirmaKeepsPhotos` |
| Reconcile.Visit | backend/api.py:128-141 | one pass of the loop body: the cursor stays within the saved photos; the record is specified by `PersonAfterMapping` |
| Reconcile.MapAll | backend/api.py:126-141 | the whole mapping loop as a left fold of `Step`: one record per person and a cursor within the saved photos; specified further by `MapAllOkIff`, `CursorIsClampedSum`, `PhotosDealtInOrder` and `AssignedPhotosArePrefix` |
| Reconcile.Step | backend/api.py:127-141 | one loop pass appends one record, keeps the earlier records, moves the cursor forward within bounds, and cannot restart a stopped loop |
| Reconcile.DealPhotosLoop | backend/api.py:128-134 | the inner loop computes the dealt record and cursor that `DealPhotos` specifies |
| Reconcile.ResolveFirmaStep | backend/api.py:136-141 | raises iff `firma` is truthy and not a string, and then leaves the record as it was; otherwise the record is the one `ResolveFirma` specifies |
| Reconcile.VisitOne | backend/api.py:128-141 | one pass of the loop body deals the photos, then resolves or raises on `firma`, exactly as `Visit` specifies |
| Reconcile.DealtPhotos | backend/api.py:128-134 | the photos dealt to one person are the saved paths between the old and the new cursor |
| Reconcile.ResolveFirmaKeepsPhotos | backend/api.py:136-141 | resolving `firma` leaves the photo list as it was |
| Reconcile.StepOk | backend/api.py:127-141 | a pass that leaves the loop running found it running, met a `firma` that does not raise, and appended the dealt and resolved record |
| Reconcile.MapearRutas | backend/api.py:125-141 | the in-place loop leaves the array, the cursor and the completion flag exactly as `MapAll` of the original records gives them, including a stop part-way |
| Reconcile.MapAllSnoc | backend/api.py:127-141 | the mapping of one more person is one more loop step |
| Reconcile.MapAllExtend | backend/api.py:127-141 | after the photo step and the signature step of person i, the array prefix is the mapping of the first i+1 persons |
| Reconcile.MapAllStopped | backend/api.py:137 | once the loop has raised on person k, the persons after k keep their records and the cursor stays where it was |
| Reconcile.SumDeclaredStep | backend/api.py:130 | the declared-photo total of a prefix grows by the next person's list length |
| Reconcile.MapAllOkIff | backend/api.py:136-137 | the loop completes iff no person has a truthy `firma` that is not a string |
| Reconcile.MapAllPrefix | backend/api.py:126-141 | a completed run completes on every prefix and produces the same records there |
| Reconcile.CursorIsClampedSum | backend/api.py:126-133 | after a completed run the cursor is min(total declared photos, photos saved) |
| Reconcile.PersonAfterMapping | backend/api.py:127-141 | each output record is its input record with photos dealt from the clamped sum of the counts before it, and its signature then resolved |
| Reconcile.PhotosDealtInOrder | backend/api.py:128-134 | a person with a photo list gets the next min(declared, remaining) saved paths, in upload order, from the one shared cursor |
| Reconcile.NoPhotoListUnchanged | backend/api.py:128 | a person whose `fotos` is missing or not a list keeps that field and does not move the cursor |
| Reconcile.FirmaResolved | backend/api.py:136-141 | a truthy `firma` becomes the saved path of the signature with the same basename, or null when there is none; any other `firma` is left as it was |
| Reconcile.OnlyPhotosAndFirmaChange | backend/api.py:127-141 | every record keeps its keys and the value of every key other than `fotos` and `firma`; the number of records is unchanged |
| Reconcile.AssignedPhotosArePrefix | backend/api.py:126-134 | the new photo lists, concatenated in person order, are exactly the first `cursor` saved photos: none is repeated, none is skipped |
| Reconcile.StrsAppend | backend/api.py:132 | converting two path lists to JSON strings and concatenating is the same as converting their concatenation |
| Reconcile.SumDeclaredMonotone | backend/api.py:130 | the declared total of a prefix never exceeds the whole total |
| Reconcile.ExactCountsWhenBalanced | backend/api.py:128-134 | a person never gets more photos than declared, and gets exactly as many when the declared total equals the saved photos |
| Layout.TaskItems | backend/pdf_generator.py:122-139 | the task text as bullets or as plain text; specified by `TaskItemsShape`, `TaskItemsOfJoin` and `TaskItemsDropsBlanks` |
| Layout.NonEmptyStripped | backend/pdf_generator.py:127-129 | the kept items are stripped, non-empty, and no more than the pieces |
| Layout.NonEmptyStrippedNoSep | backend/pdf_generator.py:124-129 | items cut at a separator do not contain it |
| Layout.NonEmptyStrippedKeepsClean | backend/pdf_generator.py:127-129 | pieces that are already stripped and non-empty are all kept, unchanged and in order |
| Layout.NonEmptyStrippedAppend | backend/pdf_generator.py:127-129 | the filter works piece by piece: it distributes over concatenation |
| Layout.TaskItemsShape | backend/pdf_generator.py:122-139 | a text gives bullets iff it contains a comma; without one it is drawn as is; with one, every bullet is non-empty, stripped and free of commas, and there are no more bullets than comma-separated pieces |
| Layout.TaskItemsOfJoin | backend/pdf_generator.py:123-133 | joining two or more clean tasks with commas and splitting them again gives back exactly those tasks as bullets |
| Layout.TaskItemsDropsBlanks | backend/pdf_generator.py:127-133 | blank pieces produce no bullet and padding is stripped, for every choice of task words and whitespace |
| Layout.PlaceTile | backend/pdf_generator.py:162-181 | one photo of the grid loop; specified by `PlaceTilePaths` and `SkippedPhotoKeepsCursor` |
| Layout.GridRun | backend/pdf_generator.py:161-181 | the grid loop over a photo list; specified by `GridRowInvariant`, `GridTilesOnPage` and `GridDrawsPresentPhotos`, and implemented by `Canvas.FotosGrid` |
| Layout.GridRowInvariant | backend/pdf_generator.py:158-181 | after every photo, 0 <= count < 3 and x = 12 + 50 * count |
| Layout.GridGuardHolds | backend/pdf_generator.py:183-185 | the guard before the cursor update always holds |
| Layout.GridTilesOnPage | backend/pdf_generator.py:162-180 | when a fresh page leaves room for one tile, every image ends at or above y = 270 in a column at x = 12, 62 or 112; every frame overhangs it by one unit, ending at or above y = 271 in a column at x = 11, 61 or 111 |
| Layout.GridDrawsPresentPhotos | backend/pdf_generator.py:161-181 | a frame is drawn for exactly the photos present on disk, in order, and an image for exactly those whose decoding does not fail |
| Layout.PlaceTilePaths | backend/pdf_generator.py:162-176 | one photo adds a frame iff it is on disk, and an image iff it is on disk and its image call does not fail |
| Layout.SkippedPhotoKeepsCursor | backend/pdf_generator.py:162-181 | a missing photo changes nothing; a failing one adds no image, and moves the cursor only through the page break before it |
| Layout.Canvas.constructor | backend/pdf_generator.py:157-159 | a canvas starts at the given cursor with nothing drawn |
| Layout.Canvas.AddPage | backend/pdf_generator.py:165-166 | a page break puts the cursor at the page top and draws nothing |
| Layout.Canvas.FotosGrid | backend/pdf_generator.py:157-185 | the grid loop adds exactly the pages, frames and images that `GridRun` specifies, and leaves the cursor one row below the last partial row |
| Layout.PathList | backend/pdf_generator.py:161 | a list of JSON values is accepted as paths only element for element |
| Layout.PlanSection | backend/pdf_generator.py:90-205 | the section drawn for one person; specified by `SectionBranches` |
| Layout.SectionBranches | backend/pdf_generator.py:104-189 | a person who was not attended shows "NO ATENDIDO" and the reason, and never a photo grid; an attended one shows "ATENDIDO" and the tasks, with a grid iff its photo list is non-empty; the signature is drawn iff `firma` is a non-empty string naming an existing file |
| Layout.ObservationsText | backend/pdf_generator.py:221 | the observations block is never empty, and shows the observations when there are any |
| Layout.CleanClientName | backend/pdf_generator.py:229 | the cleaned client name is stripped, and holds only alphanumerics, spaces, `-` and `_` taken from the client name |
| Layout.CleanClientNameFixes | backend/pdf_generator.py:229 | a name that is already clean is kept as it is |
| Layout.CleanClientNameIdempotent | backend/pdf_generator.py:229 | cleaning twice is cleaning once |
| Layout.ReportFileName | backend/pdf_generator.py:230 | `Reporte_<clean client>_<stamp>.pdf`; specified by `ReportFileNameStaysInDir` |
| Layout.CleanClientNameKeepsOthers | backend/pdf_generator.py:229 | the name characters are kept in their order: cleaning a concatenation strips the concatenation of the filtered parts |
| Layout.CleanClientNameUnpads | backend/pdf_generator.py:229 | a clean non-empty name padded with spaces and non-name characters cleans back to exactly that name |
| Layout.ReportFileNameStaysInDir | backend/pdf_generator.py:228-231 | the report's file name holds no `/`, so the PDF lands directly in the temporary directory under that name |
| Graph.SanitizedName | backend/utils.py:39-43 | the folder name; specified by `SanitizedNameClean`, `SanitizedNameKeepsOthers` and `SanitizedNameOnlyForbidden`, and implemented by `SanitizarNombre` |
| Graph.SanitizarNombre | backend/utils.py:37-43 | the replace loop returns what `SanitizedName` specifies |
| Graph.SanitizedNameClean | backend/utils.py:39-43 | the folder name is stripped and holds no forbidden character |
| Graph.DefaultNameClean | backend/utils.py:39 | the default "SinNombre" is stripped and holds no forbidden character |
| Graph.SanitizedNameKeepsOthers | backend/utils.py:41-43 | the other characters are kept in order: a name with no forbidden character and no padding is returned unchanged |
| Graph.SanitizedNameOnlyForbidden | backend/utils.py:39-43 | a non-empty name made only of forbidden characters and spaces becomes "", not "SinNombre" |
| Graph.SanitizedNameIdempotent | backend/utils.py:37-43 | sanitising a non-empty result again changes nothing |
| Graph.FirstLibrary | backend/utils.py:80-83 | the chosen drive is the first one named as the library, and when none is found no drive is |
| Graph.BuscarDrive | backend/utils.py:77-83 | the search loop stops at the first library drive and returns its id, or nothing |
| Graph.LibraryId | backend/utils.py:77-83 | the id the search loop leaves in `drive_id`; specified by `FirstLibrary` and implemented by `BuscarDrive` |
| Graph.UploadDriveId | backend/utils.py:85-89 | the report upload's drive, with its fallback to the first drive; specified by `DriveChoice` |
| Graph.BackupDriveId | backend/utils.py:266-274 | the backup's drive, with no fallback; specified by `DriveChoice` and `BackupHasNoFallback` |
| Graph.DriveChoice | backend/utils.py:79-89 | a library drive with an id is used by both uploads; otherwise the backup has no drive, and the report upload falls back to the first drive, failing only when the list is empty or that drive's id is empty |
| Graph.SanitizedNameNoSlash | backend/utils.py:41-42 | a sanitised folder name never contains `/` |
| Graph.RemotePath | backend/utils.py:93 | `/client/date/file`; specified by `RemotePathLevels` and `RemotePathFileName` |
| Graph.BackupPath | backend/utils.py:278 | `/<backup folder>/Backup_visitas_<stamp>.db`; used by `BackupOutcome` |
| Graph.RemotePathLevels | backend/utils.py:93 | the remote path has exactly three levels below the root: the sanitised client, the date and the file name |
| Graph.AbsolutePathLevels | backend/utils.py:93 | `/a/b/c` splits into the root and the three components when none holds a `/` |
| Graph.RemotePathFileName | backend/utils.py:93 | the remote file keeps the local file's basename |
| Graph.UploadOutcome | backend/utils.py:46-106 | `subir_archivo_sharepoint` with the HTTP replies as parameters; specified by `UploadOutcomeDecided` |
| Graph.BackupOutcome | backend/utils.py:237-290 | `subir_backup_database` with the HTTP replies as parameters; specified by `BackupHasNoFallback` |
| Graph.MailOutcomeOf | backend/utils.py:112-222 | `enviar_correo_graph` with the HTTP replies as parameters; specified by `MailChecksInOrder` |
| Graph.UploadOutcomeDecided | backend/utils.py:46-106 | a PUT is issued iff the file exists, a token was obtained, the site answered 200 and a drive was chosen; it goes to `/client/date/file` on that drive; the call succeeds iff such a PUT is answered 200 or 201 |
| Graph.BackupHasNoFallback | backend/utils.py:269-274 | with no library drive the backup fails with "No se encontró Drive" even when the site has drives, where the report upload would fall back to the first |
| Graph.MailChecksInOrder | backend/utils.py:112-222 | a missing PDF fails first; a token is requested only when the PDF exists and the client has a recipient; a mail is sent only with a token, to that recipient; the call succeeds iff the send is answered 202 |
| Store.Db.constructor | backend/database.py:10-43 | the tables start empty and the id sequence at 0 |
| Store.Db.AgregarCliente | backend/database.py:121-133 | a missing or empty name is refused with nothing changed; otherwise the client is inserted or its e-mail replaced, and no other table changes |
| Store.Db.EliminarCliente | backend/database.py:135-145 | the client's users are deleted, then the client; other clients, other users, technicians and reports are untouched |
| Store.Db.AgregarNuevoTecnico | backend/database.py:86-95 | a repeated name is refused with nothing changed (UNIQUE); otherwise it is appended and names stay distinct |
| Store.Db.EliminarTecnico | backend/database.py:97-106 | the technician is removed and nothing else changes |
| Store.Db.AgregarUsuario | backend/database.py:165-174 | one user row is appended, even for an unknown client |
| Store.Db.EliminarUsuario | backend/database.py:176-185 | the users with that name and client are removed; nothing else changes |
| Store.Db.GuardarReporte | backend/database.py:236-246 | exactly one row is appended, and its id is above every id ever issued, deleted ones included |
| Store.Db.ActualizarEstadoEmail | backend/database.py:229-234 | only `email_enviado` of the row with that id changes, and nothing when there is no such row |
| Store.Db.ActualizarReporte | backend/database.py:260-269 | the row with that id takes the new values and keeps its id and its position columns |
| Store.UsersNotOf | backend/database.py:139 | the users kept are exactly those of other clients |
| Store.UsersExcept | backend/database.py:180 | the users kept are exactly those other than (name, client) |
| Store.NamesExcept | backend/database.py:101 | the technicians kept are exactly the others |
| Store.NamesExceptDistinct | backend/database.py:101 | deleting a technician keeps the names unique |
| Store.DistinctSnoc | backend/database.py:90 | appending a new name keeps the names unique |
| Store.WithEmailFlag | backend/database.py:232 | the rows keep their order; the row with the id gets the new flag and the others are unchanged |
| Store.WithReportData | backend/database.py:263-267 | the rows keep their order; the row with the id gets the new values but keeps latitude and longitude |
| Store.CorreoCliente | backend/database.py:147-153 | the client's e-mail, or "" for an unknown client; specified by `CorreoAfterUpsert` |
| Store.CorreoAfterUpsert | backend/database.py:150-153 | after an upsert the e-mail read back for that client is the new one, and for every other client it is unchanged |
| Store.DeleteClientUsers | backend/database.py:139 | after the delete no user of that client remains, and every user of another client does |
| Store.Pendientes | backend/database.py:271-278 | the unsent reports in row order, never more than the rows; specified by `PendientesExactly`, `PendientesAfterSave` and `PendientesAfterFlag` |
| Store.PendientesExactly | backend/database.py:275 | the pending list holds exactly the rows whose flag is 0 |
| Store.PendientesAfterSave | backend/database.py:240-244 | a saved report joins the end of the pending list iff it was saved with flag 0 |
| Store.PendientesAfterFlag | backend/database.py:232 | marking a report as sent takes it off the pending list and changes nothing else there |
| Store.Clients | backend/database.py:296 | the grouped clients are ascending and are exactly the clients with reports |
| Store.Busiest | backend/database.py:296 | the chosen client is one of the groups, and no group has more reports |
| Store.PendingCountMatchesList | backend/database.py:291-293 | the dashboard's pending count equals the length of the pending list |
| Store.CountClientPositive | backend/database.py:296 | a client that appears in the table has at least one report |
| Store.KpisGenerales | backend/database.py:282-301 | the dashboard figures; specified by `PendingCountMatchesList` and `TopClientIsBusiest` |
| Store.TopClientIsBusiest | backend/database.py:294-296 | the top client is "N/A" iff there are no reports; otherwise it is shown as `name (count)`, has at least one report, and no client has more |
| Store.BusiestFirstOnTies | backend/database.py:296 | every client before the top one in BINARY order has strictly fewer reports |
| Store.Months | backend/database.py:307-311 | the grouped months are ascending and are exactly the 7-character prefixes of the report dates |
| Store.WithCounts | backend/database.py:307-309 | each month is paired with its number of reports |
| Store.CountMonthPositive | backend/database.py:307-309 | a month that appears in the table has at least one report |
| Store.EvolucionMensual | backend/database.py:303-317 | the monthly chart; specified by `MonthlyChart` |
| Store.MonthlyChart | backend/database.py:303-317 | at most six bars, in strictly ascending month order; each bar is a month of some report with its exact count (at least one); every month left out is older than every month shown |
| Text.LStrip | backend/pdf_generator.py:128 | `lstrip` removes exactly the leading whitespace |
| Text.RStrip | backend/pdf_generator.py:128 | `rstrip` removes exactly the trailing whitespace |
| Text.Strip | backend/pdf_generator.py:128 | the stripped text has no whitespace at either end |
| Text.StripSlice | backend/pdf_generator.py:128 | the stripped text is a slice of the original |
| Text.StripKeeps | backend/pdf_generator.py:128 | stripping never brings in a character: what holds of every character of the input holds of every character kept |
| Text.StripTrimmed | backend/pdf_generator.py:128 | stripping text without padding changes nothing |
| Text.StripPadding | backend/pdf_generator.py:128 | stripping removes whitespace padding around a clean text |
| Text.StripAllSpace | backend/pdf_generator.py:128-129 | a blank text strips to "" |
| Text.Split | backend/pdf_generator.py:124 | `split` gives at least one piece, and no piece contains the separator |
| Text.JoinSplit | backend/pdf_generator.py:124 | joining the pieces of a split gives the text back |
| Text.SplitJoin | backend/pdf_generator.py:124 | splitting pieces joined with a separator they lack gives the pieces back |
| Text.SplitCons | backend/pdf_generator.py:124 | splitting at the first separator gives the piece before it followed by the split of the rest |
| Text.Basename | backend/api.py:107 | `os.path.basename` has no `/` |
| Text.BasenameOfBasename | backend/api.py:137 | a basename is its own basename |
| Text.BasenameOfJoin | backend/api.py:108 | the basename of `dir/name` is `name` when the name has no `/` |
| Text.Without | backend/utils.py:41-42 | the removal keeps only allowed characters of the input |
| Text.RemoveCharWithout | backend/utils.py:42 | removing one more character composes with the earlier removals |
| Text.LexLessTransitive | backend/database.py:296 | BINARY order is transitive |
| Text.LexLessTotal | backend/database.py:296 | any two different keys are ordered one way or the other |
| Text.AddKey | backend/database.py:309 | adding a key to an ascending key list keeps it ascending and adds exactly that key |
| Text.AscendingSplit | backend/database.py:311-312 | in an ascending list, every key before a cut is below every key after it |

## Left out

- All Microsoft Graph networking is left out: token exchange, site and drive lookups, the PUT uploads, `sendMail` and its HTML body. These are foreign HTTP calls. Their replies (token, status codes, drive list, texts) are parameters of `UploadOutcome`, `BackupOutcome` and `MailOutcomeOf`. Exceptions raised by `requests`, and a site reply without an `id`, are not modelled.
- Graph.UploadOutcome: the configured drive name, host and site path are parameters rather than the constants in backend/config.py, which only holds constants and seed data.
- Clocks and time zones (`obtener_hora_chile`) are left out. The dates and time stamps used in paths and file names are string parameters.
- Drawing the signature image with PIL (`guardar_firma_img`) is left out.
- FPDF rendering is left out: fonts, colours, `multi_cell` wrapping, header and footer, image decoding. Whether a file exists and whether an image fails to decode are given as sets. The page top is a parameter.
- Layout.PlanSection: the page breaks at y > 220, 250 and 230 and the cursor height of the text blocks are not modelled. The grid starts from a given cursor instead.
- Layout.PlanSection: a record outside the model gives None rather than an exception. This covers a non-string `trabajo` or `motivo`, a truthy `fotos` that is not a list of strings, and a truthy non-string `firma`. Python would raise or draw something else for these.
- Layout.IsAlnum: Python's `str.isalnum` is modelled for ASCII and Latin-1 letters and digits only. Other Unicode alphanumerics are not kept.
- Reconcile.SavedPath: `os.path.abspath` is taken as the identity. This assumes the configured scratch directory is already absolute and normalised.
- Reconcile.ScratchDir.GuardarFotos: only the failure that an unwritable name causes is modelled (an empty name, `.` or `..`). A basename holding a NUL character (a `ValueError` from `open`) or longer than the file system's name limit (an `OSError`) is not modelled as a failure, and neither are disk-full and permission errors or the bytes copied.
- The endpoint as a whole is not modelled, because it is broken as written. `database.eliminar_reporte` does not exist (backend/api.py:70). Three values are unpacked from a two-value return (backend/api.py:157). `utils.crear_item_lista` does not exist (backend/api.py:171). `enviar_correo_graph` is called with one argument too many (backend/api.py:176). The cleanup at backend/api.py:198-206 is unreachable after the return at line 191. Saving, mapping and cleanup are therefore modelled as separate operations.
- Reconcile.MapearRutas: every entry of `datos_usuarios` is a JSON object and the top level is a list. A string entry, where `'fotos' in usuario` is a substring test and `usuario['fotos']` then raises `TypeError`, and a top-level object, whose keys the loop would walk, are not modelled.
- JSON numbers are integers only (`Json.Num`). Floating-point numbers in the request are not modelled; the model cannot express a fractional value such as `0.5`, which Python treats as truthy.
- The write to the process-wide `CORREOS_POR_CLIENTE` map (backend/api.py:97) is not modelled. In `MailOutcomeOf` the recipients map is a parameter.
- SQLite mechanics are not modelled: connections, commits, the `ALTER TABLE` migrations, the seed data, and exceptions other than the UNIQUE violation. `guardar_reporte` is defined twice with the same body, and one definition is modelled. User and technician row ids are not modelled.
- Store: the read-only queries outside the core are not modelled. These are `obtener_tecnicos`, `obtener_clientes`, `obtener_nombres_clientes`, `obtener_usuarios_por_cliente`, `obtener_conteo_reportes`, `obtener_historial`, `obtener_reporte_por_id`, `obtener_datos_clientes` and `obtener_datos_tecnicos`.
- Store.KpisGenerales: on a tie for the most reports, SQLite does not specify which client comes first. The model picks the first in BINARY order. Where the source leaves it open, the model only promises that no client has more reports (`TopClientIsBusiest`).
- Store: the foreign key from `usuarios` to `clientes` is not enforced, because SQLite leaves foreign keys off unless a connection asks for them. So no cascade happens, and a user may name an unknown client.
- Store: NULL column values are not modelled. Names, dates and e-mails are strings, and the e-mail flag is an integer.
- Store.CorreoCliente: a stored NULL e-mail would be returned as `None` rather than "". It is not modelled, because e-mails are strings here.
