/** Report intake, files side (backend/api.py): saving the uploaded photos and
    signatures into the scratch area, reconciling the person records of
    `datos_usuarios` with the saved paths, and the deferred deletion of the
    scratch files. */
module Reconcile {
  import opened Text
  import opened Seqs
  import opened Json

  function Min(a: int, b: int): int {
    if a <= b then a else b
  }

  // ---------------------------------------------------------------------
  // Saving the uploads (lines 103-123)
  // ---------------------------------------------------------------------

  /** `open(temp_dir + "/" + name, "wb")` raises when the name denotes a
      directory rather than a file in the scratch area. */
  predicate Writable(name: string) {
    name !in DirectoryNames
  }

  /** The names that denote a directory when joined to the scratch path. */
  const DirectoryNames: set<string> := {"", ".", ".."}

  /** Every upload of the list can be written, checked upload by upload
      as the saving loop does. */
  predicate AllWritable(uploads: seq<string>) {
    uploads == []
    || (AllWritable(uploads[..|uploads| - 1]) && Writable(Basename(uploads[|uploads| - 1])))
  }

  lemma {:induction false} AllWritableIff(uploads: seq<string>)
    ensures AllWritable(uploads) <==> forall i :: 0 <= i < |uploads| ==> Writable(Basename(uploads[i]))
  {
    if uploads != [] {
      var init := uploads[..|uploads| - 1];
      AllWritableIff(init);
      InitIndex(uploads);
    }
  }

  /** One more writable upload extends a writable prefix. */
  lemma AllWritableStep(uploads: seq<string>, i: nat)
    requires i < |uploads| && AllWritable(uploads[..i]) && Writable(Basename(uploads[i]))
    ensures AllWritable(uploads[..i + 1])
  {
    PrefixOfPrefix(uploads, i + 1, i);
  }

  /** The path an upload is saved under, `temp_dir/basename`. The scratch
      directory is absolute and normalised, and a writable basename is
      neither "." nor "..", so `os.path.abspath` leaves this path as it is. */
  function SavedPath(tempDir: string, upload: string): string {
    tempDir + "/" + Basename(upload)
  }

  /** The saved paths of a list of uploads, in upload order. */
  function SavedPaths(uploads: seq<string>, tempDir: string): (r: seq<string>)
    ensures |r| == |uploads|
  {
    if uploads == [] then []
    else SavedPaths(uploads[..|uploads| - 1], tempDir) + [SavedPath(tempDir, uploads[|uploads| - 1])]
  }

  /** The elements of a list of paths. */
  function Elems(paths: seq<string>): set<string> {
    set x | x in paths
  }

  lemma ElemsSnoc(paths: seq<string>, x: string)
    ensures Elems(paths + [x]) == Elems(paths) + {x}
  {
  }

  lemma ElemsIndex(paths: seq<string>, i: nat)
    requires i < |paths|
    ensures paths[i] in Elems(paths)
  {
  }

  /** The basenames of a list of uploads. */
  function Basenames(uploads: seq<string>): set<string> {
    set i | 0 <= i < |uploads| :: Basename(uploads[i])
  }

  /** `rutas_firmas_servidor`: keyed by basename, valued by saved path. */
  function SignatureMap(firmas: seq<string>, tempDir: string): map<string, string> {
    map b | b in Basenames(firmas) :: tempDir + "/" + b
  }

  /** The n-th saved path is the saved path of the n-th upload. */
  lemma {:induction false} SavedPathsAt(uploads: seq<string>, n: nat, tempDir: string)
    requires n < |uploads|
    ensures SavedPaths(uploads, tempDir)[n] == SavedPath(tempDir, uploads[n])
  {
    if n < |uploads| - 1 {
      var init := uploads[..|uploads| - 1];
      SavedPathsAt(init, n, tempDir);
    }
  }

  /** One more saved upload extends the saved paths by its own path. */
  lemma SavedPathsStep(uploads: seq<string>, n: nat, tempDir: string)
    requires n < |uploads|
    ensures SavedPaths(uploads[..n + 1], tempDir) == SavedPaths(uploads[..n], tempDir) + [SavedPath(tempDir, uploads[n])]
    ensures SavedPaths(uploads, tempDir)[n] == SavedPath(tempDir, uploads[n])
  {
    PrefixOfPrefix(uploads, n + 1, n);
    SavedPathsAt(uploads, n, tempDir);
  }

  /** One more saved signature adds (or overwrites) the entry of its basename. */
  lemma SignatureMapStep(firmas: seq<string>, n: nat, tempDir: string)
    requires n < |firmas|
    ensures SignatureMap(firmas[..n + 1], tempDir)
         == SignatureMap(firmas[..n], tempDir)[Basename(firmas[n]) := SavedPath(tempDir, firmas[n])]
  {
    assert Basenames(firmas[..n + 1]) == Basenames(firmas[..n]) + {Basename(firmas[n])} by {
      assert forall i :: 0 <= i < n ==> firmas[..n + 1][i] == firmas[..n][i];
    }
  }

  /** Every upload is written directly inside the scratch directory: its
      name has no '/', so no upload can climb out of `temp_dir`. */
  lemma SavedInsideTempDir(tempDir: string, upload: string)
    ensures '/' !in Basename(upload)
    ensures Basename(tempDir + "/" + Basename(upload)) == Basename(upload)
  {
    BasenameOfJoin(tempDir, Basename(upload));
  }

  /** Every key of the signature map is the basename of an upload, and
      looking up the basename of any upload finds its saved path. */
  lemma SignatureMapLookup(firmas: seq<string>, tempDir: string, i: nat)
    requires i < |firmas|
    ensures Basename(firmas[i]) in SignatureMap(firmas, tempDir)
    ensures SignatureMap(firmas, tempDir)[Basename(firmas[i])] == SavedPath(tempDir, firmas[i])
    ensures forall k :: k in SignatureMap(firmas, tempDir) ==> '/' !in k
  {
  }

  /** `archivos_para_borrar` once the PDF is rendered (lines 153-154): the
      PDF path is added only when it is a non-empty string. */
  function CleanupList(pending: seq<string>, pdfPath: string): (r: seq<string>)
    ensures pdfPath == "" ==> r == pending
    ensures pdfPath != "" ==> |r| == |pending| + 1 && r[..|pending|] == pending && r[|pending|] == pdfPath
  {
    if pdfPath != "" then pending + [pdfPath] else pending
  }

  /** The scratch area on disk, as the set of absolute paths of its files. */
  class ScratchDir {
    var files: set<string>

    constructor (existing: set<string>)
      ensures files == existing
    {
      files := existing;
    }

    /** Lines 103-112: each photo is written under its basename and its path
        appended, in upload order, to the saved photos and to the cleanup
        list. A name that cannot be opened for writing raises. */
    method GuardarFotos(fotos: seq<string>, tempDir: string)
      returns (ok: bool, rutasFotos: seq<string>)
      modifies this
      ensures ok <==> forall i :: 0 <= i < |fotos| ==> Writable(Basename(fotos[i]))
      ensures ok ==> rutasFotos == SavedPaths(fotos, tempDir)
      ensures ok ==> files == old(files) + Elems(SavedPaths(fotos, tempDir))
      ensures old(files) <= files <= old(files) + Elems(SavedPaths(fotos, tempDir))
    {
      rutasFotos := [];
      var i := 0;
      while i < |fotos|
        invariant 0 <= i <= |fotos|
        invariant AllWritable(fotos[..i])
        invariant rutasFotos == SavedPaths(fotos[..i], tempDir)
        invariant files == old(files) + Elems(rutasFotos)
        invariant Elems(rutasFotos) <= Elems(SavedPaths(fotos, tempDir))
      {
        var cleanName := Basename(fotos[i]);
        if !Writable(cleanName) {
          ok := false;
          return;
        }
        var rutaDest := tempDir + "/" + cleanName;
        files := files + {rutaDest};
        AllWritableStep(fotos, i);
        SavedPathsStep(fotos, i, tempDir);
        ElemsSnoc(rutasFotos, rutaDest);
        ElemsIndex(SavedPaths(fotos, tempDir), i);
        rutasFotos := rutasFotos + [rutaDest];
        i := i + 1;
      }
      TakeAll(fotos);
      AllWritableIff(fotos);
      ok := true;
    }

    /** Lines 114-123: each signature is written under its basename and
        entered in a map keyed by that basename (a later upload with the same
        basename overwrites the entry), its path appended to the cleanup
        list. A name that cannot be opened for writing raises. */
    method GuardarFirmas(firmas: seq<string>, tempDir: string)
      returns (ok: bool, rutasFirmas: map<string, string>, rutasBorrar: seq<string>)
      modifies this
      ensures ok <==> forall i :: 0 <= i < |firmas| ==> Writable(Basename(firmas[i]))
      ensures ok ==> rutasFirmas == SignatureMap(firmas, tempDir)
      ensures ok ==> rutasBorrar == SavedPaths(firmas, tempDir)
      ensures ok ==> files == old(files) + Elems(SavedPaths(firmas, tempDir))
      ensures old(files) <= files <= old(files) + Elems(SavedPaths(firmas, tempDir))
    {
      rutasFirmas, rutasBorrar := map[], [];
      var j := 0;
      while j < |firmas|
        invariant 0 <= j <= |firmas|
        invariant AllWritable(firmas[..j])
        invariant rutasFirmas == SignatureMap(firmas[..j], tempDir)
        invariant rutasBorrar == SavedPaths(firmas[..j], tempDir)
        invariant files == old(files) + Elems(rutasBorrar)
        invariant Elems(rutasBorrar) <= Elems(SavedPaths(firmas, tempDir))
      {
        var cleanName := Basename(firmas[j]);
        if !Writable(cleanName) {
          ok := false;
          return;
        }
        var rutaDest := tempDir + "/" + cleanName;
        files := files + {rutaDest};
        AllWritableStep(firmas, j);
        SavedPathsStep(firmas, j, tempDir);
        SignatureMapStep(firmas, j, tempDir);
        ElemsSnoc(rutasBorrar, rutaDest);
        ElemsIndex(SavedPaths(firmas, tempDir), j);
        rutasFirmas := rutasFirmas[cleanName := rutaDest];
        rutasBorrar := rutasBorrar + [rutaDest];
        j := j + 1;
      }
      TakeAll(firmas);
      AllWritableIff(firmas);
      ok := true;
    }

    /** Lines 103-123: the photos are saved, then the signatures; the cleanup
        list holds the saved photo paths in upload order followed by the
        saved signature paths. An upload that cannot be written raises,
        which ends the request with the files written so far left behind. */
    method GuardarSubidas(fotos: seq<string>, firmas: seq<string>, tempDir: string)
      returns (ok: bool, rutasFotos: seq<string>, rutasFirmas: map<string, string>, paraBorrar: seq<string>)
      modifies this
      ensures ok <==> (forall i :: 0 <= i < |fotos| ==> Writable(Basename(fotos[i])))
                      && (forall i :: 0 <= i < |firmas| ==> Writable(Basename(firmas[i])))
      ensures ok ==> rutasFotos == SavedPaths(fotos, tempDir)
      ensures ok ==> rutasFirmas == SignatureMap(firmas, tempDir)
      ensures ok ==> paraBorrar == SavedPaths(fotos, tempDir) + SavedPaths(firmas, tempDir)
      ensures ok ==> files == old(files) + Elems(SavedPaths(fotos, tempDir)) + Elems(SavedPaths(firmas, tempDir))
      ensures old(files) <= files <= old(files) + Elems(SavedPaths(fotos, tempDir)) + Elems(SavedPaths(firmas, tempDir))
    {
      rutasFirmas, paraBorrar := map[], [];
      ok, rutasFotos := GuardarFotos(fotos, tempDir);
      if !ok {
        return;
      }
      var rutasBorrar;
      ok, rutasFirmas, rutasBorrar := GuardarFirmas(firmas, tempDir);
      if ok {
        paraBorrar := rutasFotos + rutasBorrar;
      }
    }

    /** Lines 57-65: each listed path that exists is removed; a removal that
        raises (the paths in `failing`) is reported and skipped. Nothing that
        is not listed is touched. */
    method EliminarArchivosTemporales(rutas: seq<string>, failing: set<string>)
      modifies this
      ensures files == old(files) - (set i | 0 <= i < |rutas| && rutas[i] !in failing :: rutas[i])
    {
      var i := 0;
      while i < |rutas|
        invariant 0 <= i <= |rutas|
        invariant files == old(files) - (set k | 0 <= k < i && rutas[k] !in failing :: rutas[k])
      {
        var ruta := rutas[i];
        if ruta in files && ruta !in failing {
          files := files - {ruta};
        }
        i := i + 1;
      }
    }
  }

  // ---------------------------------------------------------------------
  // Reconciling the person records (lines 125-141)
  // ---------------------------------------------------------------------

  /** Line 128: the person carries a `fotos` key whose value is a list. */
  predicate HasPhotoList(p: Person) {
    "fotos" in p && p["fotos"].Arr?
  }

  /** How many photos the person declares: the length of its list. */
  function Declared(p: Person): nat {
    if HasPhotoList(p) then |p["fotos"].items| else 0
  }

  /** The person's photo list, empty when it has none. */
  function PhotosOf(p: Person): seq<Value> {
    if HasPhotoList(p) then p["fotos"].items else []
  }

  /** Saved paths as JSON strings. */
  function Strs(paths: seq<string>): (r: seq<Value>)
    ensures |r| == |paths|
    ensures forall i :: 0 <= i < |r| ==> r[i] == Str(paths[i])
  {
    if paths == [] then [] else [Str(paths[0])] + Strs(paths[1..])
  }

  /** Lines 128-134 for one person: a list-valued `fotos` is replaced by the
      next saved paths from the cursor, one per declared entry while saved
      paths remain; the cursor advances by as many. */
  function DealPhotos(p: Person, saved: seq<string>, cursor: nat): (r: (Person, nat))
    requires cursor <= |saved|
    ensures cursor <= r.1 <= |saved|
  {
    if HasPhotoList(p) then
      var next := Min(cursor + Declared(p), |saved|);
      (p["fotos" := Arr(Strs(saved[cursor..next]))], next)
    else
      (p, cursor)
  }

  /** Line 137: a truthy `firma` that is not a string makes
      `os.path.basename` raise. */
  predicate FirmaRaises(p: Person) {
    "firma" in p && Truthy(p["firma"]) && !p["firma"].Str?
  }

  /** Lines 136-141 for one person: a truthy `firma` is replaced by the saved
      path of the signature with the same basename, or by null when no such
      signature was uploaded. */
  function ResolveFirma(p: Person, sigs: map<string, string>): Person
    requires !FirmaRaises(p)
  {
    if "firma" in p && Truthy(p["firma"]) then
      var b := Basename(p["firma"].s);
      p["firma" := if b in sigs then Str(sigs[b]) else Null]
    else
      p
  }

  /** The state of the mapping loop after a prefix of the persons: the
      records as edited so far, the shared cursor `contador_fotos`, and
      whether the loop is still running (false once an exception left it). */
  datatype Mapping = Mapping(persons: seq<Person>, cursor: nat, ok: bool)

  /** Lines 128-141 for one person reached by the loop: the record after
      both steps, the new cursor, and false when `firma` raised. */
  function Visit(p: Person, saved: seq<string>, sigs: map<string, string>, cursor: nat): (r: (Person, nat, bool))
    requires cursor <= |saved|
    ensures cursor <= r.1 <= |saved|
  {
    var (q, c) := DealPhotos(p, saved, cursor);
    if FirmaRaises(q) then (q, c, false) else (ResolveFirma(q, sigs), c, true)
  }

  /** Lines 127-141: one pass of the loop body over person `p`. Once an
      exception has left the loop, later persons are not touched. */
  function Step(prev: Mapping, p: Person, saved: seq<string>, sigs: map<string, string>): (m: Mapping)
    requires prev.cursor <= |saved|
    ensures |m.persons| == |prev.persons| + 1 && m.persons[..|prev.persons|] == prev.persons
    ensures prev.cursor <= m.cursor <= |saved|
    ensures m.ok ==> prev.ok
  {
    if !prev.ok then Mapping(prev.persons + [p], prev.cursor, false)
    else
      var (u, c, ok) := Visit(p, saved, sigs, prev.cursor);
      Mapping(prev.persons + [u], c, ok)
  }

  /** The two keys the mapping edits are different keys. */
  lemma FotosNotFirma()
    ensures "fotos" != "firma"
  {
    assert "fotos"[1] != "firma"[1];
  }

  /** Resolving the signature leaves the photo list alone. */
  lemma ResolveFirmaKeepsPhotos(q: Person, sigs: map<string, string>)
    requires !FirmaRaises(q)
    ensures HasPhotoList(ResolveFirma(q, sigs)) == HasPhotoList(q)
    ensures PhotosOf(ResolveFirma(q, sigs)) == PhotosOf(q)
  {
    FotosNotFirma();
  }

  /** The photos dealt to one person are the saved paths between the old
      and the new cursor. */
  lemma DealtPhotos(p: Person, saved: seq<string>, cursor: nat)
    requires cursor <= |saved|
    ensures PhotosOf(DealPhotos(p, saved, cursor).0) == Strs(saved[cursor..DealPhotos(p, saved, cursor).1])
  {
  }

  /** A step that leaves the loop running dealt the photos and resolved the
      signature of a person whose `firma` does not raise. */
  lemma StepOk(prev: Mapping, p: Person, saved: seq<string>, sigs: map<string, string>)
    requires prev.cursor <= |saved| && Step(prev, p, saved, sigs).ok
    ensures prev.ok
    ensures var (q, c) := DealPhotos(p, saved, prev.cursor);
            !FirmaRaises(q) && Step(prev, p, saved, sigs) == Mapping(prev.persons + [ResolveFirma(q, sigs)], c, true)
  {
  }

  /** Lines 126-141 over a whole array of persons. */
  function MapAll(ps: seq<Person>, saved: seq<string>, sigs: map<string, string>): (m: Mapping)
    ensures |m.persons| == |ps|
    ensures m.cursor <= |saved|
  {
    if ps == [] then Mapping([], 0, true)
    else Step(MapAll(ps[..|ps| - 1], saved, sigs), ps[|ps| - 1], saved, sigs)
  }

  /** Lines 128-134: the inner loop that deals one person its photos. */
  method DealPhotosLoop(u: Person, rutasFotos: seq<string>, contador: nat) returns (u': Person, contador': nat)
    requires contador <= |rutasFotos|
    ensures (u', contador') == DealPhotos(u, rutasFotos, contador)
  {
    u', contador' := u, contador;
    if "fotos" in u && u["fotos"].Arr? {
      var fotos := u["fotos"].items;
      var nuevasRutas: seq<string> := [];
      var j := 0;
      while j < |fotos|
        invariant 0 <= j <= |fotos|
        invariant contador <= contador' <= |rutasFotos|
        invariant contador' == Min(contador + j, |rutasFotos|)
        invariant nuevasRutas == rutasFotos[contador..contador']
      {
        if contador' < |rutasFotos| {
          nuevasRutas := nuevasRutas + [rutasFotos[contador']];
          contador' := contador' + 1;
        }
        j := j + 1;
      }
      u' := u["fotos" := Arr(Strs(nuevasRutas))];
    }
  }

  /** Lines 136-141: the signature step for one person. When `firma` is
      truthy but not a string, `os.path.basename` raises and the record is
      left as the photo step made it. */
  method ResolveFirmaStep(u: Person, rutasFirmas: map<string, string>) returns (raises: bool, u': Person)
    ensures raises <==> FirmaRaises(u)
    ensures raises ==> u' == u
    ensures !raises ==> u' == ResolveFirma(u, rutasFirmas)
  {
    raises, u' := false, u;
    if "firma" in u && Truthy(u["firma"]) {
      if !u["firma"].Str? {
        raises := true;
        return;
      }
      var nombreArchivo := Basename(u["firma"].s);
      if nombreArchivo in rutasFirmas {
        u' := u["firma" := Str(rutasFirmas[nombreArchivo])];
      } else {
        u' := u["firma" := Null];
      }
    }
  }

  /** Lines 128-141: the body of the mapping loop for one person. */
  method VisitOne(usuario: Person, rutasFotos: seq<string>, rutasFirmas: map<string, string>, contador: nat)
    returns (u: Person, contador': nat, completed: bool)
    requires contador <= |rutasFotos|
    ensures (u, contador', completed) == Visit(usuario, rutasFotos, rutasFirmas, contador)
  {
    var dealt;
    dealt, contador' := DealPhotosLoop(usuario, rutasFotos, contador);
    var raises;
    raises, u := ResolveFirmaStep(dealt, rutasFirmas);
    completed := !raises;
  }

  /** Lines 125-141: the mapping loop, editing the person records in place. */
  method MapearRutas(usuarios: array<Person>, rutasFotos: seq<string>, rutasFirmas: map<string, string>)
    returns (contador: nat, ok: bool)
    modifies usuarios
    ensures MapAll(old(usuarios[..]), rutasFotos, rutasFirmas) == Mapping(usuarios[..], contador, ok)
  {
    ghost var orig := usuarios[..];
    contador, ok := 0, true;
    var i := 0;
    while i < usuarios.Length
      invariant 0 <= i <= usuarios.Length
      invariant usuarios[..] == MapAll(orig[..i], rutasFotos, rutasFirmas).persons + orig[i..]
      invariant MapAll(orig[..i], rutasFotos, rutasFirmas) == Mapping(usuarios[..i], contador, true)
    {
      ghost var cur := usuarios[..];
      ghost var before := usuarios[..i];
      ghost var c0 := contador;
      var u, completed;
      u, contador, completed := VisitOne(usuarios[i], rutasFotos, rutasFirmas, contador);
      MapAllExtend(orig, i, before, c0, u, contador, completed, rutasFotos, rutasFirmas);
      ReplaceNext(cur, before, orig, i, u);
      usuarios[i] := u;
      assert usuarios[..] == cur[i := u];
      if !completed {
        // os.path.basename raises: the exception leaves the loop here
        ok := false;
        MapAllStopped(orig, rutasFotos, rutasFirmas, i);
        return;
      }
      i := i + 1;
    }
    TakeAll(orig);
  }

  /** One more person: the step the loop body takes. */
  lemma MapAllSnoc(ps: seq<Person>, p: Person, saved: seq<string>, sigs: map<string, string>)
    ensures MapAll(ps + [p], saved, sigs) == Step(MapAll(ps, saved, sigs), p, saved, sigs)
  {
    TakeSnoc(ps, p);
  }

  /** The loop body's effect on person `i`, given the photo step and the
      signature step it ran. */
  lemma MapAllExtend(ps: seq<Person>, i: nat, before: seq<Person>, c0: nat, u: Person, c: nat,
                     completed: bool, saved: seq<string>, sigs: map<string, string>)
    requires i < |ps|
    requires MapAll(ps[..i], saved, sigs) == Mapping(before, c0, true)
    requires c0 <= |saved| && (u, c, completed) == Visit(ps[i], saved, sigs, c0)
    ensures MapAll(ps[..i + 1], saved, sigs) == Mapping(before + [u], c, completed)
  {
    TakeNext(ps, i);
    MapAllSnoc(ps[..i], ps[i], saved, sigs);
  }

  /** Once the loop has stopped on person `k`, the persons after it keep
      their original records and the cursor does not move again. */
  lemma {:induction false} MapAllStopped(ps: seq<Person>, saved: seq<string>, sigs: map<string, string>, k: nat)
    requires k < |ps|
    requires !MapAll(ps[..k + 1], saved, sigs).ok
    ensures var m := MapAll(ps[..k + 1], saved, sigs);
            MapAll(ps, saved, sigs) == Mapping(m.persons + ps[k + 1..], m.cursor, false)
    decreases |ps|
  {
    if |ps| > k + 1 {
      var init, last := ps[..|ps| - 1], ps[|ps| - 1];
      PrefixOfPrefix(ps, |ps| - 1, k + 1);
      MapAllStopped(init, saved, sigs, k);
      var m := MapAll(ps[..k + 1], saved, sigs);
      var prev := MapAll(init, saved, sigs);
      assert MapAll(ps, saved, sigs) == Step(prev, last, saved, sigs);
      DropSnoc(ps, k + 1);
      AppendAssoc(m.persons, init[k + 1..], [last]);
    } else {
      TakeAll(ps);
    }
  }

  // ---------------------------------------------------------------------
  // Properties of the mapping
  // ---------------------------------------------------------------------

  /** Sum of the declared photo counts. */
  function SumDeclared(ps: seq<Person>): nat {
    if ps == [] then 0 else SumDeclared(ps[..|ps| - 1]) + Declared(ps[|ps| - 1])
  }

  lemma SumDeclaredStep(ps: seq<Person>, i: nat)
    requires i < |ps|
    ensures SumDeclared(ps[..i + 1]) == SumDeclared(ps[..i]) + Declared(ps[i])
  {
    PrefixOfPrefix(ps, i + 1, i);
  }

  /** Every photo list of the records, concatenated in person order. */
  function AllPhotos(ps: seq<Person>): seq<Value> {
    if ps == [] then [] else AllPhotos(ps[..|ps| - 1]) + PhotosOf(ps[|ps| - 1])
  }

  lemma AllPhotosSnoc(ps: seq<Person>, p: Person)
    ensures AllPhotos(ps + [p]) == AllPhotos(ps) + PhotosOf(p)
  {
    TakeSnoc(ps, p);
  }

  /** The loop completes exactly when no person carries a truthy non-string
      `firma`. */
  lemma {:induction false} MapAllOkIff(ps: seq<Person>, saved: seq<string>, sigs: map<string, string>)
    ensures MapAll(ps, saved, sigs).ok <==> forall i :: 0 <= i < |ps| ==> !FirmaRaises(ps[i])
  {
    if ps != [] {
      var init := ps[..|ps| - 1];
      MapAllOkIff(init, saved, sigs);
      InitIndex(ps);
      var prev := MapAll(init, saved, sigs);
      if prev.ok {
        var q := DealPhotos(ps[|ps| - 1], saved, prev.cursor).0;
        assert FirmaRaises(q) == FirmaRaises(ps[|ps| - 1]);
      }
    }
  }

  /** A completed run is a completed run on every prefix, with the same records. */
  lemma {:induction false} MapAllPrefix(ps: seq<Person>, saved: seq<string>, sigs: map<string, string>, k: nat)
    requires k <= |ps|
    requires MapAll(ps, saved, sigs).ok
    ensures MapAll(ps[..k], saved, sigs).ok
    ensures MapAll(ps[..k], saved, sigs).persons == MapAll(ps, saved, sigs).persons[..k]
    decreases |ps|
  {
    if k < |ps| {
      var init := ps[..|ps| - 1];
      PrefixOfPrefix(ps, |ps| - 1, k);
      MapAllPrefix(init, saved, sigs, k);
      PrefixOfPrefix(MapAll(ps, saved, sigs).persons, |ps| - 1, k);
    } else {
      TakeAll(ps);
    }
  }

  /** The cursor never passes the saved photos: after a completed run it is
      the declared total, clamped to the number of saved photos. */
  lemma {:induction false} CursorIsClampedSum(ps: seq<Person>, saved: seq<string>, sigs: map<string, string>)
    requires MapAll(ps, saved, sigs).ok
    ensures MapAll(ps, saved, sigs).cursor == Min(SumDeclared(ps), |saved|)
  {
    if ps != [] {
      CursorIsClampedSum(ps[..|ps| - 1], saved, sigs);
    }
  }

  /** The record of person `i` after a completed run is its own record with
      photos dealt from the clamped sum of the counts declared before it and
      its signature resolved. */
  lemma PersonAfterMapping(ps: seq<Person>, saved: seq<string>, sigs: map<string, string>, i: nat)
    requires i < |ps|
    requires MapAll(ps, saved, sigs).ok
    ensures Min(SumDeclared(ps[..i]), |saved|) <= |saved|
    ensures !FirmaRaises(ps[i])
    ensures var q := DealPhotos(ps[i], saved, Min(SumDeclared(ps[..i]), |saved|)).0;
            !FirmaRaises(q) && MapAll(ps, saved, sigs).persons[i] == ResolveFirma(q, sigs)
  {
    MapAllPrefix(ps, saved, sigs, i + 1);
    var pre := ps[..i + 1];
    PrefixOfPrefix(ps, i + 1, i);
    TakeIndex(ps, i);
    var prev := MapAll(ps[..i], saved, sigs);
    assert MapAll(pre, saved, sigs) == Step(prev, ps[i], saved, sigs);
    StepOk(prev, ps[i], saved, sigs);
    CursorIsClampedSum(ps[..i], saved, sigs) by {
      MapAllPrefix(ps, saved, sigs, i);
    }
    MapAllOkIff(ps, saved, sigs);
    var q := DealPhotos(ps[i], saved, prev.cursor).0;
    TakeSnoc(prev.persons, ResolveFirma(q, sigs));
    TakeIndex(MapAll(ps, saved, sigs).persons, i);
  }

  /** Each person with a photo list receives the next
      min(declared, remaining) saved paths, in upload order, from the one
      cursor shared by all persons. */
  lemma PhotosDealtInOrder(ps: seq<Person>, saved: seq<string>, sigs: map<string, string>, i: nat)
    requires i < |ps| && HasPhotoList(ps[i])
    requires MapAll(ps, saved, sigs).ok
    ensures Min(SumDeclared(ps[..i]), |saved|) <= Min(SumDeclared(ps[..i + 1]), |saved|) <= |saved|
    ensures HasPhotoList(MapAll(ps, saved, sigs).persons[i])
    ensures PhotosOf(MapAll(ps, saved, sigs).persons[i])
            == Strs(saved[Min(SumDeclared(ps[..i]), |saved|)..Min(SumDeclared(ps[..i + 1]), |saved|)])
  {
    PersonAfterMapping(ps, saved, sigs, i);
    SumDeclaredStep(ps, i);
    var from := Min(SumDeclared(ps[..i]), |saved|);
    var q := DealPhotos(ps[i], saved, from).0;
    DealtPhotos(ps[i], saved, from);
    ResolveFirmaKeepsPhotos(q, sigs);
    assert DealPhotos(ps[i], saved, from).1 == Min(SumDeclared(ps[..i + 1]), |saved|);
  }

  /** A person without a list-valued `fotos` keeps that field as it was and
      does not move the cursor. */
  lemma NoPhotoListUnchanged(ps: seq<Person>, saved: seq<string>, sigs: map<string, string>, i: nat)
    requires i < |ps| && !HasPhotoList(ps[i])
    requires MapAll(ps, saved, sigs).ok
    ensures ("fotos" in MapAll(ps, saved, sigs).persons[i]) == ("fotos" in ps[i])
    ensures "fotos" in ps[i] ==> MapAll(ps, saved, sigs).persons[i]["fotos"] == ps[i]["fotos"]
    ensures SumDeclared(ps[..i + 1]) == SumDeclared(ps[..i])
  {
    PersonAfterMapping(ps, saved, sigs, i);
    SumDeclaredStep(ps, i);
  }

  /** A truthy string `firma` becomes the saved path of the signature with
      the same basename, or null when there is none; any other `firma` is
      left as it was. */
  lemma FirmaResolved(ps: seq<Person>, saved: seq<string>, sigs: map<string, string>, i: nat)
    requires i < |ps|
    requires MapAll(ps, saved, sigs).ok
    ensures var r := MapAll(ps, saved, sigs).persons[i];
            if "firma" in ps[i] && Truthy(ps[i]["firma"]) then
              ps[i]["firma"].Str? && "firma" in r
              && r["firma"] == (if Basename(ps[i]["firma"].s) in sigs
                                then Str(sigs[Basename(ps[i]["firma"].s)]) else Null)
            else
              ("firma" in r) == ("firma" in ps[i]) && ("firma" in ps[i] ==> r["firma"] == ps[i]["firma"])
  {
    PersonAfterMapping(ps, saved, sigs, i);
  }

  /** The mapping edits only `fotos` and `firma`: every record keeps its set
      of keys and the value of every other key, and the number and order of
      the records is unchanged. */
  lemma OnlyPhotosAndFirmaChange(ps: seq<Person>, saved: seq<string>, sigs: map<string, string>, i: nat, key: string)
    requires i < |ps|
    requires MapAll(ps, saved, sigs).ok
    requires key != "fotos" && key != "firma"
    ensures |MapAll(ps, saved, sigs).persons| == |ps|
    ensures MapAll(ps, saved, sigs).persons[i].Keys == ps[i].Keys
    ensures key in ps[i] ==> MapAll(ps, saved, sigs).persons[i][key] == ps[i][key]
  {
    PersonAfterMapping(ps, saved, sigs, i);
  }

  /** The reassigned photo lists, concatenated in person order, are exactly
      the first `contador_fotos` saved paths: no saved photo is handed out
      twice and none before the cursor is skipped. */
  lemma {:induction false} AssignedPhotosArePrefix(ps: seq<Person>, saved: seq<string>, sigs: map<string, string>)
    requires MapAll(ps, saved, sigs).ok
    ensures AllPhotos(MapAll(ps, saved, sigs).persons) == Strs(saved[..MapAll(ps, saved, sigs).cursor])
  {
    if ps != [] {
      var init, p := ps[..|ps| - 1], ps[|ps| - 1];
      var prev := MapAll(init, saved, sigs);
      assert MapAll(ps, saved, sigs) == Step(prev, p, saved, sigs);
      StepOk(prev, p, saved, sigs);
      AssignedPhotosArePrefix(init, saved, sigs);
      var (q, c) := DealPhotos(p, saved, prev.cursor);
      var r := ResolveFirma(q, sigs);
      TakeSnoc(prev.persons, r);
      AllPhotosSnoc(prev.persons, r);
      ResolveFirmaKeepsPhotos(q, sigs);
      DealtPhotos(p, saved, prev.cursor);
      SliceSplit(saved, prev.cursor, c);
      StrsAppend(saved[..prev.cursor], saved[prev.cursor..c]);
    }
  }

  lemma StrsAppend(a: seq<string>, b: seq<string>)
    ensures Strs(a + b) == Strs(a) + Strs(b)
  {
  }

  /** Declared totals only grow along the array. */
  lemma {:induction false} SumDeclaredMonotone(ps: seq<Person>, k: nat)
    requires k <= |ps|
    ensures SumDeclared(ps[..k]) <= SumDeclared(ps)
    decreases |ps|
  {
    if k < |ps| {
      var init := ps[..|ps| - 1];
      PrefixOfPrefix(ps, |ps| - 1, k);
      SumDeclaredMonotone(init, k);
    } else {
      TakeAll(ps);
    }
  }

  /** When the declared counts add up to the number of uploaded photos,
      every person with a photo list gets exactly its declared count; when
      they add up to more, lists come out shorter, never longer. */
  lemma ExactCountsWhenBalanced(ps: seq<Person>, saved: seq<string>, sigs: map<string, string>, i: nat)
    requires i < |ps| && HasPhotoList(ps[i])
    requires MapAll(ps, saved, sigs).ok
    ensures |PhotosOf(MapAll(ps, saved, sigs).persons[i])| <= Declared(ps[i])
    ensures SumDeclared(ps) == |saved| ==> |PhotosOf(MapAll(ps, saved, sigs).persons[i])| == Declared(ps[i])
  {
    PhotosDealtInOrder(ps, saved, sigs, i);
    SumDeclaredStep(ps, i);
    SumDeclaredMonotone(ps, i + 1);
  }
}
