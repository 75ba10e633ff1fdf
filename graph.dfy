/** The decisions of the SharePoint and mail helpers (backend/utils.py):
    cleaning a client name into a folder name, picking the document library
    among a site's drives, building the remote paths, and the order of the
    checks that decide each call's outcome. Every reply of the Microsoft
    Graph service (token, site lookup, drive list, upload and send status)
    is a parameter. */
module Graph {
  import opened Text
  import opened Seqs
  import opened Wrappers

  // ---------------------------------------------------------------------
  // Folder names (lines 37-43)
  // ---------------------------------------------------------------------

  /** Line 41: the characters SharePoint refuses in a folder name, in the
      order they are removed. */
  const Forbidden: seq<char> := ['"', '*', ':', '<', '>', '?', '/', '\\', '|']

  function CharsOf(cs: seq<char>): set<char> {
    set c | c in cs
  }

  /** Lines 39-43: "SinNombre" for a missing or empty name; otherwise the
      name without the forbidden characters, stripped. */
  function SanitizedName(nombre: Option<string>): string {
    if nombre.None? || nombre.value == "" then "SinNombre"
    else Strip(Without(nombre.value, CharsOf(Forbidden)))
  }

  /** Lines 37-43: `_sanitizar_nombre`, one `replace` per forbidden character. */
  method SanitizarNombre(nombre: Option<string>) returns (r: string)
    ensures r == SanitizedName(nombre)
  {
    if nombre.None? || nombre.value == "" {
      return "SinNombre";
    }
    var s := nombre.value;
    WithoutNoneBad(s, {});
    assert CharsOf(Forbidden[..0]) == {};
    var k := 0;
    while k < |Forbidden|
      invariant 0 <= k <= |Forbidden|
      invariant s == Without(nombre.value, CharsOf(Forbidden[..k]))
    {
      RemoveCharWithout(nombre.value, CharsOf(Forbidden[..k]), Forbidden[k]);
      CharsOfSnoc(Forbidden, k);
      s := RemoveChar(s, Forbidden[k]);
      k := k + 1;
    }
    TakeAll(Forbidden);
    r := Strip(s);
  }

  /** One more character of the list adds just that character to the set. */
  lemma CharsOfSnoc(cs: seq<char>, k: nat)
    requires k < |cs|
    ensures CharsOf(cs[..k + 1]) == CharsOf(cs[..k]) + {cs[k]}
  {
    TakeNext(cs, k);
  }

  /** The folder name holds no forbidden character and no outer whitespace. */
  lemma SanitizedNameClean(nombre: Option<string>)
    ensures Trimmed(SanitizedName(nombre))
    ensures forall i :: 0 <= i < |SanitizedName(nombre)| ==> SanitizedName(nombre)[i] !in CharsOf(Forbidden)
  {
    if nombre.None? || nombre.value == "" {
      DefaultNameClean();
    } else {
      StripKeeps(Without(nombre.value, CharsOf(Forbidden)), c => c !in CharsOf(Forbidden));
    }
  }

  lemma DefaultNameClean()
    ensures Trimmed("SinNombre")
    ensures forall i :: 0 <= i < |"SinNombre"| ==> "SinNombre"[i] !in CharsOf(Forbidden)
  {
  }

  /** A name free of forbidden characters is only stripped, and removal
      keeps the other characters in their order. */
  lemma SanitizedNameKeepsOthers(a: string, b: string)
    requires a + b != ""
    ensures SanitizedName(Some(a + b))
         == Strip(Without(a, CharsOf(Forbidden)) + Without(b, CharsOf(Forbidden)))
    ensures (forall i :: 0 <= i < |a| ==> a[i] !in CharsOf(Forbidden)) && b == []
            ==> SanitizedName(Some(a + b)) == Strip(a)
  {
    WithoutAppend(a, b, CharsOf(Forbidden));
    if (forall i :: 0 <= i < |a| ==> a[i] !in CharsOf(Forbidden)) && b == [] {
      WithoutNoneBad(a, CharsOf(Forbidden));
      assert a + b == a;
    }
  }

  /** The emptiness test runs before the removal: a non-empty name made only
      of forbidden characters and whitespace gives "", not "SinNombre". */
  lemma SanitizedNameOnlyForbidden(s: string)
    requires s != ""
    requires forall i :: 0 <= i < |s| ==> s[i] in CharsOf(Forbidden) || IsSpace(s[i])
    ensures SanitizedName(Some(s)) == ""
  {
    var w := Without(s, CharsOf(Forbidden));
    assert forall i :: 0 <= i < |w| ==> IsSpace(w[i]);
    StripAllSpace(w);
  }

  /** Cleaning a non-empty folder name again leaves it as it is. */
  lemma SanitizedNameIdempotent(nombre: Option<string>)
    requires SanitizedName(nombre) != ""
    ensures SanitizedName(Some(SanitizedName(nombre))) == SanitizedName(nombre)
  {
    var r := SanitizedName(nombre);
    SanitizedNameClean(nombre);
    WithoutNoneBad(r, CharsOf(Forbidden));
    StripTrimmed(r);
  }

  // ---------------------------------------------------------------------
  // Drive selection (lines 77-89 and 268-274)
  // ---------------------------------------------------------------------

  /** One entry of a site's drive list. */
  datatype Drive = Drive(name: string, id: string)

  /** Lines 81 and 270: the drive is the document library. */
  predicate IsLibrary(name: string, configured: string) {
    name == configured || name == "Documents" || name == "Documentos"
  }

  /** The position of the first document library in the list. */
  function FirstLibrary(drives: seq<Drive>, configured: string): (r: Option<nat>)
    ensures r.Some? ==> r.value < |drives| && IsLibrary(drives[r.value].name, configured)
                        && forall j :: 0 <= j < r.value ==> !IsLibrary(drives[j].name, configured)
    ensures r.None? ==> forall j :: 0 <= j < |drives| ==> !IsLibrary(drives[j].name, configured)
  {
    if drives == [] then None
    else if IsLibrary(drives[0].name, configured) then Some(0)
    else match FirstLibrary(drives[1..], configured)
         case None => None
         case Some(i) => Some(i + 1)
  }

  /** The id the search loop leaves in `drive_id`: None when no drive is
      the library. */
  function LibraryId(drives: seq<Drive>, configured: string): Option<string> {
    match FirstLibrary(drives, configured)
    case None => None
    case Some(i) => Some(drives[i].id)
  }

  /** Lines 77-83 and 268-272: the search loop, stopping at the first match. */
  method BuscarDrive(drives: seq<Drive>, configured: string) returns (driveId: Option<string>)
    ensures driveId == LibraryId(drives, configured)
  {
    driveId := None;
    var i := 0;
    while i < |drives|
      invariant 0 <= i <= |drives|
      invariant forall j :: 0 <= j < i ==> !IsLibrary(drives[j].name, configured)
    {
      if IsLibrary(drives[i].name, configured) {
        driveId := Some(drives[i].id);
        return;
      }
      i := i + 1;
    }
  }

  /** Lines 85-89: `drive_id` is usable when it is truthy in Python, that is
      set and not the empty string. */
  predicate UsableId(id: Option<string>) {
    id.Some? && id.value != ""
  }

  /** Lines 85-89: with no usable library id, the report upload falls back
      to the first drive of a non-empty list; None is the error. */
  function UploadDriveId(drives: seq<Drive>, configured: string): Option<string> {
    var found := LibraryId(drives, configured);
    var id := if !UsableId(found) && drives != [] then Some(drives[0].id) else found;
    if UsableId(id) then id else None
  }

  /** Line 274: the backup has no fallback. */
  function BackupDriveId(drives: seq<Drive>, configured: string): Option<string> {
    var found := LibraryId(drives, configured);
    if UsableId(found) then found else None
  }

  /** Both uploads take the first library when its id is usable. Otherwise
      the report upload takes the first drive of the list, and fails only
      when the list is empty or that drive's id is empty too; the backup
      fails whenever no library with a usable id was found, even when the
      site has drives. */
  lemma DriveChoice(drives: seq<Drive>, configured: string)
    ensures var lib := FirstLibrary(drives, configured);
            if lib.Some? && drives[lib.value].id != "" then
              UploadDriveId(drives, configured) == Some(drives[lib.value].id)
              && BackupDriveId(drives, configured) == Some(drives[lib.value].id)
            else
              BackupDriveId(drives, configured) == None
              && (UploadDriveId(drives, configured).None? <==> drives == [] || drives[0].id == "")
              && (drives != [] && drives[0].id != "" ==> UploadDriveId(drives, configured) == Some(drives[0].id))
  {
  }

  // ---------------------------------------------------------------------
  // Remote paths (lines 59-63, 93, 253-254, 278)
  // ---------------------------------------------------------------------

  /** Line 93: `/client/yyyy-mm-dd/file`. */
  function RemotePath(cliente: string, fecha: string, rutaLocal: string): string {
    "/" + SanitizedName(Some(cliente)) + "/" + fecha + "/" + Basename(rutaLocal)
  }

  /** Line 254: the backup's file name, from the `%Y%m%d_%H%M%S` time. */
  function BackupFileName(timestamp: string): string {
    "Backup_visitas_" + timestamp + ".db"
  }

  /** Line 278. */
  function BackupPath(folder: string, timestamp: string): string {
    "/" + folder + "/" + BackupFileName(timestamp)
  }

  /** The cleaned client folder never holds a '/'. */
  lemma SanitizedNameNoSlash(cliente: string)
    ensures '/' !in SanitizedName(Some(cliente))
  {
    SanitizedNameClean(Some(cliente));
    assert '/' in CharsOf(Forbidden);
  }

  /** The upload path has exactly three levels below the drive root: the
      cleaned client folder, the date folder and the local file's own name. */
  lemma RemotePathLevels(cliente: string, fecha: string, rutaLocal: string)
    requires '/' !in fecha
    ensures Split(RemotePath(cliente, fecha, rutaLocal), '/')
         == ["", SanitizedName(Some(cliente)), fecha, Basename(rutaLocal)]
  {
    SanitizedNameNoSlash(cliente);
    AbsolutePathLevels(SanitizedName(Some(cliente)), fecha, Basename(rutaLocal));
  }

  lemma AbsolutePathLevels(a: string, b: string, c: string)
    requires '/' !in a && '/' !in b && '/' !in c
    ensures Split("/" + a + "/" + b + "/" + c, '/') == ["", a, b, c]
  {
    var bc := b + "/" + c;
    var abc := a + "/" + bc;
    SplitCons(b, c, '/');
    PairOfSingletons(b, c);
    SplitCons(a, bc, '/');
    ConsPair(a, b, c);
    SplitLeadingSep(abc, '/');
    ConcatSix("/", a, "/", b, "/", c);
    ConsFour("", a, b, c);
  }

  /** The uploaded file keeps the local file's name. */
  lemma RemotePathFileName(cliente: string, fecha: string, rutaLocal: string)
    ensures Basename(RemotePath(cliente, fecha, rutaLocal)) == Basename(rutaLocal)
  {
    var c := SanitizedName(Some(cliente));
    var b := Basename(rutaLocal);
    assert RemotePath(cliente, fecha, rutaLocal) == ("/" + c + "/" + fecha) + "/" + b;
    BasenameOfJoin("/" + c + "/" + fecha, b);
  }

  // ---------------------------------------------------------------------
  // Outcomes (lines 46-109, 112-224, 237-293)
  // ---------------------------------------------------------------------

  /** Lines 103 and 287: an upload is accepted on 200 or 201. */
  predicate UploadAccepted(status: int) {
    status == 200 || status == 201
  }

  /** Line 221: a mail is accepted on 202. */
  predicate MailAccepted(status: int) {
    status == 202
  }

  /** The replies of the service for one call. An empty token stands for
      the failed token request (`None`). */
  datatype Replies = Replies(token: string, siteStatus: int, siteText: string, drives: seq<Drive>,
                             putStatus: int, putText: string)

  /** The upload request a call makes: the drive and the remote path. */
  datatype Put = Put(driveId: string, path: string)

  /** What a call returns, with the upload it made, if any. */
  datatype Outcome = Outcome(ok: bool, message: string, put: Option<Put>)

  /** Lines 46-106: `subir_archivo_sharepoint` (`sitePath` is the configured
      site path, `fecha` the `%Y-%m-%d` date). */
  function UploadOutcome(localExists: bool, replies: Replies, sitePath: string, configured: string,
                         cliente: string, fecha: string, rutaLocal: string): Outcome {
    if !localExists then Outcome(false, "Archivo local no existe", None)
    else if replies.token == "" then Outcome(false, "No se pudo autenticar con Graph", None)
    else if replies.siteStatus != 200 then
      Outcome(false, "Error buscando Sitio SharePoint (" + sitePath + "): " + replies.siteText, None)
    else
      match UploadDriveId(replies.drives, configured)
      case None => Outcome(false, "No se encontró la biblioteca de documentos", None)
      case Some(id) =>
        var put := Some(Put(id, RemotePath(cliente, fecha, rutaLocal)));
        if UploadAccepted(replies.putStatus) then
          Outcome(true, "Subido a carpeta '" + SanitizedName(Some(cliente)) + "/" + fecha + "'", put)
        else
          Outcome(false, "Error subida SP: " + IntToString(replies.putStatus), put)
  }

  /** An upload is made only once the file exists, a token was obtained, the
      site was found and a drive chosen; it goes to the chosen drive under
      the client/date path, and the call succeeds exactly when it is
      accepted. */
  lemma UploadOutcomeDecided(localExists: bool, replies: Replies, sitePath: string, configured: string,
                             cliente: string, fecha: string, rutaLocal: string)
    ensures var o := UploadOutcome(localExists, replies, sitePath, configured, cliente, fecha, rutaLocal);
            var ready := localExists && replies.token != "" && replies.siteStatus == 200
                         && UploadDriveId(replies.drives, configured).Some?;
            && (o.put.Some? <==> ready)
            && (ready ==> o.put.value == Put(UploadDriveId(replies.drives, configured).value,
                                             RemotePath(cliente, fecha, rutaLocal)))
            && (o.ok <==> ready && UploadAccepted(replies.putStatus))
  {
  }

  /** Lines 237-290: `subir_backup_database`. */
  function BackupOutcome(dbExists: bool, replies: Replies, configured: string, folder: string, timestamp: string): Outcome {
    if !dbExists then Outcome(false, "No se encuentra el archivo de base de datos local.", None)
    else if replies.token == "" then Outcome(false, "No se pudo autenticar con Graph", None)
    else if replies.siteStatus != 200 then Outcome(false, "Error conectando al sitio SharePoint", None)
    else
      match BackupDriveId(replies.drives, configured)
      case None => Outcome(false, "No se encontró Drive", None)
      case Some(id) =>
        var put := Some(Put(id, BackupPath(folder, timestamp)));
        if UploadAccepted(replies.putStatus) then
          Outcome(true, "Backup exitoso: " + BackupFileName(timestamp), put)
        else
          Outcome(false, "Error subida: " + IntToString(replies.putStatus) + " - " + replies.putText, put)
  }

  /** The backup fails with "No se encontró Drive" when no drive of a
      reachable site is the library, even when the site has drives, where
      the report upload would fall back to the first one. */
  lemma BackupHasNoFallback(replies: Replies, configured: string, folder: string, timestamp: string)
    requires replies.token != "" && replies.siteStatus == 200
    requires FirstLibrary(replies.drives, configured).None?
    ensures BackupOutcome(true, replies, configured, folder, timestamp)
         == Outcome(false, "No se encontró Drive", None)
    ensures replies.drives != [] && replies.drives[0].id != ""
            ==> UploadDriveId(replies.drives, configured) == Some(replies.drives[0].id)
  {
  }

  /** The outcome of `enviar_correo_graph`: the flags say how far the call
      got (a token was requested; a mail was sent, to this recipient). */
  datatype MailOutcome = MailOutcome(ok: bool, message: string, tokenRequested: bool, sentTo: Option<string>)

  /** Lines 112-222: the checks run in order (the PDF exists, the client
      has a recipient, a token was obtained) before the send. */
  function MailOutcomeOf(pdfExists: bool, correos: map<string, string>, cliente: string, token: string,
                         sendStatus: int, sendText: string): MailOutcome {
    if !pdfExists then MailOutcome(false, "PDF no existe.", false, None)
    else
      var destinatario := if cliente in correos then correos[cliente] else "";
      if destinatario == "" then MailOutcome(false, "No hay correo para " + cliente, false, None)
      else if token == "" then MailOutcome(false, "Error Auth Azure", true, None)
      else if MailAccepted(sendStatus) then MailOutcome(true, "Correo enviado (Oficial)", true, Some(destinatario))
      else MailOutcome(false, "Error Graph Email: " + sendText, true, Some(destinatario))
  }

  /** No token is requested unless the PDF exists and the client has a
      recipient; a mail is sent only with a token, always to the client's
      recipient; and the call succeeds exactly when the send is accepted. */
  lemma MailChecksInOrder(pdfExists: bool, correos: map<string, string>, cliente: string, token: string,
                          sendStatus: int, sendText: string)
    ensures var o := MailOutcomeOf(pdfExists, correos, cliente, token, sendStatus, sendText);
            && (!pdfExists ==> o == MailOutcome(false, "PDF no existe.", false, None))
            && (o.tokenRequested <==> pdfExists && cliente in correos && correos[cliente] != "")
            && (o.sentTo.Some? <==> o.tokenRequested && token != "")
            && (o.sentTo.Some? ==> o.sentTo.value == correos[cliente])
            && (o.ok <==> o.sentTo.Some? && MailAccepted(sendStatus))
  {
  }
}
