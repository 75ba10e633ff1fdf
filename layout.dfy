/** Layout rules of the visit report (backend/pdf_generator.py, `generar_pdf`):
    how each person's section is composed, how a comma-separated task text
    becomes a bullet list, where the photo grid puts each tile, and how the
    output file is named. FPDF's own drawing is reduced to the positions and
    texts it is handed. */
module Layout {
  import opened Text
  import opened Seqs
  import opened Json
  import opened Wrappers

  // ---------------------------------------------------------------------
  // Tasks (lines 116-139)
  // ---------------------------------------------------------------------

  /** What the "Tareas Realizadas" part shows: a bullet per task, or the
      text as one block. */
  datatype TaskBlock = Bullets(items: seq<string>) | Plain(text: string)

  /** Lines 127-129: each piece stripped, the empty ones dropped, in order. */
  function NonEmptyStripped(pieces: seq<string>): (r: seq<string>)
    ensures |r| <= |pieces|
    ensures forall i :: 0 <= i < |r| ==> r[i] != "" && Trimmed(r[i])
  {
    if pieces == [] then []
    else
      (if Strip(pieces[0]) != "" then [Strip(pieces[0])] else []) + NonEmptyStripped(pieces[1..])
  }

  /** Lines 122-139: a text with a comma is split on every comma into
      bullets; a text without one is shown verbatim, even when empty. */
  function TaskItems(text: string): TaskBlock {
    if ',' in text then Bullets(NonEmptyStripped(Split(text, ','))) else Plain(text)
  }

  /** A stripped piece is a slice of the piece, so it has no comma when the
      piece has none. */
  lemma {:induction false} NonEmptyStrippedNoSep(pieces: seq<string>, sep: char)
    requires forall i :: 0 <= i < |pieces| ==> sep !in pieces[i]
    ensures forall i :: 0 <= i < |NonEmptyStripped(pieces)| ==> sep !in NonEmptyStripped(pieces)[i]
  {
    if pieces != [] {
      var rest := NonEmptyStripped(pieces[1..]);
      NonEmptyStrippedNoSep(pieces[1..], sep);
      StripMembers(pieces[0]);
      var head := if Strip(pieces[0]) != "" then [Strip(pieces[0])] else [];
      assert forall i :: 0 <= i < |head| ==> sep !in head[i];
      NoneInConcat(head, rest, sep);
    }
  }

  /** A property of every string holds across a concatenation of lists. */
  lemma NoneInConcat(a: seq<string>, b: seq<string>, sep: char)
    requires forall i :: 0 <= i < |a| ==> sep !in a[i]
    requires forall i :: 0 <= i < |b| ==> sep !in b[i]
    ensures forall i :: 0 <= i < |a + b| ==> sep !in (a + b)[i]
  {
  }

  /** Pieces that are already non-empty and stripped all come through. */
  lemma {:induction false} NonEmptyStrippedKeepsClean(pieces: seq<string>)
    requires forall i :: 0 <= i < |pieces| ==> pieces[i] != "" && Trimmed(pieces[i])
    ensures NonEmptyStripped(pieces) == pieces
  {
    if pieces != [] {
      StripTrimmed(pieces[0]);
      NonEmptyStrippedKeepsClean(pieces[1..]);
    }
  }

  /** Filtering distributes over concatenation: the bullets keep the order
      of the pieces they come from. */
  lemma {:induction false} NonEmptyStrippedAppend(a: seq<string>, b: seq<string>)
    ensures NonEmptyStripped(a + b) == NonEmptyStripped(a) + NonEmptyStripped(b)
  {
    if a != [] {
      ConsTail(a, b);
      var head := if Strip(a[0]) != "" then [Strip(a[0])] else [];
      NonEmptyStrippedAppend(a[1..], b);
      AppendAssoc(head, NonEmptyStripped(a[1..]), NonEmptyStripped(b));
    } else {
      EmptyAppend(b);
      EmptyAppend(NonEmptyStripped(b));
    }
  }

  /** With a comma the result is a list of non-empty, stripped bullets with
      no comma in them; without one it is the text itself. */
  lemma TaskItemsShape(text: string)
    ensures ',' in text <==> TaskItems(text).Bullets?
    ensures ',' !in text ==> TaskItems(text) == Plain(text)
    ensures ',' in text ==>
              |TaskItems(text).items| <= |Split(text, ',')|
              && forall i :: 0 <= i < |TaskItems(text).items| ==>
                   var b := TaskItems(text).items[i];
                   b != "" && Trimmed(b) && ',' !in b
  {
    if ',' in text {
      NonEmptyStrippedNoSep(Split(text, ','), ',');
    }
  }

  /** Writing two or more clean tasks separated by commas and reading them
      back gives exactly those tasks. */
  lemma TaskItemsOfJoin(tasks: seq<string>)
    requires |tasks| >= 2
    requires forall i :: 0 <= i < |tasks| ==> tasks[i] != "" && Trimmed(tasks[i]) && ',' !in tasks[i]
    ensures TaskItems(Join(tasks, ',')) == Bullets(tasks)
  {
    SplitJoin(tasks, ',');
    NonEmptyStrippedKeepsClean(tasks);
    AroundSeparator(tasks[0], ',', Join(tasks[1..], ','));
  }

  /** Blanks around the commas are stripped and an entry made only of
      blanks is dropped: "a, ,  b " lists just `a` and `b`. */
  lemma TaskItemsDropsBlanks(a: string, blank: string, left: string, b: string, right: string)
    requires a != "" && Trimmed(a) && ',' !in a
    requires b != "" && Trimmed(b) && ',' !in b
    requires forall i :: 0 <= i < |blank| ==> IsSpace(blank[i])
    requires forall i :: 0 <= i < |left| ==> IsSpace(left[i])
    requires forall i :: 0 <= i < |right| ==> IsSpace(right[i])
    ensures TaskItems(a + "," + blank + "," + left + b + right) == Bullets([a, b])
  {
    var padded := left + b + right;
    var t := a + "," + blank + "," + padded;
    assert a + "," + blank + "," + left + b + right == t;
    assert ',' !in blank && ',' !in padded by {
      assert forall i :: 0 <= i < |blank| ==> blank[i] != ',';
      assert forall i :: 0 <= i < |padded| ==> padded[i] != ',';
    }
    assert ',' in t by {
      assert t[|a|] == ',';
    }
    JoinThree(a, blank, padded);
    SplitJoin([a, blank, padded], ',');
    StripPadding(left, b, right);
    ThreePiecesStripped(a, blank, padded, b);
  }

  lemma JoinThree(a: string, b: string, c: string)
    ensures Join([a, b, c], ',') == a + "," + b + "," + c
  {
    var pieces := [a, b, c];
    TripleTails(a, b, c);
    assert Join([c], ',') == c;
    assert Join([b, c], ',') == b + [','] + c;
    assert Join(pieces, ',') == a + [','] + (b + [','] + c);
  }

  lemma ThreePiecesStripped(a: string, blank: string, padded: string, b: string)
    requires a != "" && Trimmed(a)
    requires forall i :: 0 <= i < |blank| ==> IsSpace(blank[i])
    requires Strip(padded) == b && b != ""
    ensures NonEmptyStripped([a, blank, padded]) == [a, b]
  {
    StripTrimmed(a);
    StripAllSpace(blank);
    var tail := [blank] + [padded];
    NonEmptyStrippedOne(blank);
    NonEmptyStrippedOne(padded);
    NonEmptyStrippedAppend([blank], [padded]);
    EmptyAppend([b]);
    NonEmptyStrippedOne(a);
    NonEmptyStrippedAppend([a], tail);
    ThreeOfSingletons(a, blank, padded);
    PairOfSingletons(a, b);
  }

  lemma NonEmptyStrippedOne(p: string)
    ensures NonEmptyStripped([p]) == if Strip(p) != "" then [Strip(p)] else []
  {
    SingletonTail(p);
    AppendEmpty(if Strip(p) != "" then [Strip(p)] else []);
  }

  // ---------------------------------------------------------------------
  // Photo grid (lines 150-185)
  // ---------------------------------------------------------------------

  const GridLeft: int := 12
  const ColumnStep: int := 50
  const RowStep: int := 40
  const TileHeight: int := 35
  const PageBottom: int := 270
  const Columns: int := 3
  /** Line 173: the frame is a 47 x 37 rectangle drawn one unit up and to
      the left of the 45 x 35 image it surrounds. */
  const FrameMargin: int := 1
  const FrameHeight: int := 37

  /** A rectangle drawn on the page, by its top-left corner (x, y): a photo
      frame, or the image inside it. */
  datatype Tile = Tile(path: string, x: int, y: int)

  /** The frame around the image placed at (x, y). */
  function FrameAt(fp: string, x: int, y: int): (t: Tile)
    ensures t.path == fp && t.x == x - FrameMargin && t.y == y - FrameMargin
  {
    Tile(fp, x - FrameMargin, y - FrameMargin)
  }

  /** The grid loop's variables `x_fotos`, `y_fotos`, `count`, with the
      pages it added and the frames and images it drew. */
  datatype Grid = Grid(x: int, y: int, count: int, pages: nat, frames: seq<Tile>, images: seq<Tile>)

  /** Lines 162-181 for one photo. A missing file is skipped. Otherwise a
      page is added first when the tile would pass the page bottom, the
      frame is drawn, and when the image call succeeds the cursor moves one
      column, wrapping to a new row after the third. */
  function PlaceTile(g: Grid, fp: string, onDisk: set<string>, fails: set<string>, pageTop: int): Grid {
    if fp !in onDisk then g
    else
      var b := if g.y + TileHeight > PageBottom
               then g.(x := GridLeft, y := pageTop, count := 0, pages := g.pages + 1)
               else g;
      var framed := b.(frames := b.frames + [FrameAt(fp, b.x, b.y)]);
      if fp in fails then framed
      else if b.count + 1 >= Columns then
        framed.(images := b.images + [Tile(fp, b.x, b.y)], x := GridLeft, count := 0, y := b.y + RowStep)
      else
        framed.(images := b.images + [Tile(fp, b.x, b.y)], x := b.x + ColumnStep, count := b.count + 1)
  }

  /** The grid loop over a list of photos, from the cursor `y0`. */
  function GridRun(fotos: seq<string>, y0: int, onDisk: set<string>, fails: set<string>, pageTop: int): Grid {
    if fotos == [] then Grid(GridLeft, y0, 0, 0, [], [])
    else PlaceTile(GridRun(fotos[..|fotos| - 1], y0, onDisk, fails, pageTop), fotos[|fotos| - 1], onDisk, fails, pageTop)
  }

  /** Line 185: the cursor after the grid, one row further when the last
      row is partly filled. */
  function GridEndY(g: Grid): int {
    if g.count > 0 then g.y + RowStep else g.y
  }

  /** After every photo, 0 <= count < 3 and x = 12 + 50 * count. */
  lemma {:induction false} GridRowInvariant(fotos: seq<string>, y0: int, onDisk: set<string>, fails: set<string>, pageTop: int)
    ensures var g := GridRun(fotos, y0, onDisk, fails, pageTop);
            0 <= g.count < Columns && g.x == GridLeft + ColumnStep * g.count
  {
    if fotos != [] {
      GridRowInvariant(fotos[..|fotos| - 1], y0, onDisk, fails, pageTop);
    }
  }

  /** The guard on line 184 always holds, since count = 0 forces x = 12:
      the cursor is always set after a grid. */
  lemma GridGuardHolds(fotos: seq<string>, y0: int, onDisk: set<string>, fails: set<string>, pageTop: int)
    ensures var g := GridRun(fotos, y0, onDisk, fails, pageTop);
            g.count > 0 || (g.count == 0 && g.x == GridLeft)
  {
    GridRowInvariant(fotos, y0, onDisk, fails, pageTop);
  }

  /** When a fresh page leaves room for one image, every image ends at or
      above y = 270 and sits in one of the columns x = 12, 62, 112; its frame
      overhangs by one unit, ending at or above y = 271 in the columns
      x = 11, 61, 111. */
  lemma {:induction false} GridTilesOnPage(fotos: seq<string>, y0: int, onDisk: set<string>, fails: set<string>, pageTop: int)
    requires pageTop + TileHeight <= PageBottom
    ensures var g := GridRun(fotos, y0, onDisk, fails, pageTop);
            && (forall t :: t in g.frames ==> t.y + FrameHeight <= PageBottom + FrameMargin && t.x in {11, 61, 111})
            && (forall t :: t in g.images ==> t.y + TileHeight <= PageBottom && t.x in {12, 62, 112})
  {
    if fotos != [] {
      var init := fotos[..|fotos| - 1];
      GridTilesOnPage(init, y0, onDisk, fails, pageTop);
      GridRowInvariant(init, y0, onDisk, fails, pageTop);
    }
  }

  /** The photos of a list whose file exists, and among those the ones
      whose image call succeeds, in order. */
  function Present(fotos: seq<string>, onDisk: set<string>): seq<string> {
    if fotos == [] then []
    else Present(fotos[..|fotos| - 1], onDisk) + (if fotos[|fotos| - 1] in onDisk then [fotos[|fotos| - 1]] else [])
  }

  function Placed(fotos: seq<string>, onDisk: set<string>, fails: set<string>): seq<string> {
    if fotos == [] then []
    else Placed(fotos[..|fotos| - 1], onDisk, fails)
         + (if fotos[|fotos| - 1] in onDisk && fotos[|fotos| - 1] !in fails then [fotos[|fotos| - 1]] else [])
  }

  function TilePaths(ts: seq<Tile>): (r: seq<string>)
    ensures |r| == |ts|
  {
    if ts == [] then [] else TilePaths(ts[..|ts| - 1]) + [ts[|ts| - 1].path]
  }

  /** A frame is drawn for exactly the photos whose file exists and an image
      for exactly those whose image call also succeeds, in list order; the
      others are skipped. */
  lemma {:induction false} GridDrawsPresentPhotos(fotos: seq<string>, y0: int, onDisk: set<string>, fails: set<string>, pageTop: int)
    ensures TilePaths(GridRun(fotos, y0, onDisk, fails, pageTop).frames) == Present(fotos, onDisk)
    ensures TilePaths(GridRun(fotos, y0, onDisk, fails, pageTop).images) == Placed(fotos, onDisk, fails)
  {
    if fotos != [] {
      var init := fotos[..|fotos| - 1];
      GridDrawsPresentPhotos(init, y0, onDisk, fails, pageTop);
      PlaceTilePaths(GridRun(init, y0, onDisk, fails, pageTop), fotos[|fotos| - 1], onDisk, fails, pageTop);
    }
  }

  /** One photo adds its path to the frames when its file exists, and to
      the images when its image call also succeeds. */
  lemma PlaceTilePaths(g: Grid, fp: string, onDisk: set<string>, fails: set<string>, pageTop: int)
    ensures var h := PlaceTile(g, fp, onDisk, fails, pageTop);
            && TilePaths(h.frames) == TilePaths(g.frames) + (if fp in onDisk then [fp] else [])
            && TilePaths(h.images) == TilePaths(g.images) + (if fp in onDisk && fp !in fails then [fp] else [])
  {
    if fp in onDisk {
      var b := if g.y + TileHeight > PageBottom
               then g.(x := GridLeft, y := pageTop, count := 0, pages := g.pages + 1)
               else g;
      TilePathsSnoc(g.frames, FrameAt(fp, b.x, b.y));
      TilePathsSnoc(g.images, Tile(fp, b.x, b.y));
    }
    AppendEmpty(TilePaths(g.frames));
    AppendEmpty(TilePaths(g.images));
  }

  lemma TilePathsSnoc(ts: seq<Tile>, t: Tile)
    ensures TilePaths(ts + [t]) == TilePaths(ts) + [t.path]
  {
    TakeSnoc(ts, t);
  }

  /** A photo that is drawn neither moves the column nor the row count:
      only the page break before it can move the cursor, to the page top. */
  lemma SkippedPhotoKeepsCursor(g: Grid, fp: string, onDisk: set<string>, fails: set<string>, pageTop: int)
    requires fp !in onDisk || fp in fails
    ensures var h := PlaceTile(g, fp, onDisk, fails, pageTop);
            && h.images == g.images
            && (fp !in onDisk ==> h == g)
            && (h.pages == g.pages ==> h.x == g.x && h.y == g.y && h.count == g.count)
            && (h.pages != g.pages ==> h.pages == g.pages + 1 && h.x == GridLeft && h.y == pageTop && h.count == 0)
  {
  }

  /** The page holding the grid: the cursor `y`, the pages added and the
      frames and images drawn so far. */
  class Canvas {
    var y: int
    var pages: nat
    var frames: seq<Tile>
    var images: seq<Tile>
    /** The cursor at the top of a new page, below the header. */
    const pageTop: int

    constructor (y0: int, top: int)
      ensures y == y0 && pageTop == top && pages == 0 && frames == [] && images == []
    {
      y, pageTop, pages, frames, images := y0, top, 0, [], [];
    }

    /** `pdf.add_page()`: the cursor moves to the top of the new page. */
    method AddPage()
      modifies this
      ensures y == pageTop && pages == old(pages) + 1
      ensures frames == old(frames) && images == old(images)
    {
      y, pages := pageTop, pages + 1;
    }

    /** Lines 157-185: the photo grid of one person, drawn from the cursor. */
    method FotosGrid(fotos: seq<string>, onDisk: set<string>, fails: set<string>)
      modifies this
      ensures var g := GridRun(fotos, old(y), onDisk, fails, pageTop);
              && pages == old(pages) + g.pages
              && frames == old(frames) + g.frames
              && images == old(images) + g.images
              && y == GridEndY(g)
    {
      ghost var y0, p0, f0, i0 := y, pages, frames, images;
      var yFotos := y;
      var xFotos := GridLeft;
      var count := 0;
      var i := 0;
      while i < |fotos|
        invariant 0 <= i <= |fotos|
        invariant var g := GridRun(fotos[..i], y0, onDisk, fails, pageTop);
                  && xFotos == g.x && yFotos == g.y && count == g.count
                  && pages == p0 + g.pages && frames == f0 + g.frames && images == i0 + g.images
      {
        var fp := fotos[i];
        ghost var g := GridRun(fotos[..i], y0, onDisk, fails, pageTop);
        if fp in onDisk {
          if yFotos + TileHeight > PageBottom {
            AddPage();
            yFotos := y;
            xFotos := GridLeft;
            count := 0;
          }
          var frame := FrameAt(fp, xFotos, yFotos);
          AppendAssoc(f0, g.frames, [frame]);
          frames := frames + [frame];
          if fp !in fails {
            AppendAssoc(i0, g.images, [Tile(fp, xFotos, yFotos)]);
            images := images + [Tile(fp, xFotos, yFotos)];
            xFotos := xFotos + ColumnStep;
            count := count + 1;
            if count >= Columns {
              count := 0;
              xFotos := GridLeft;
              yFotos := yFotos + RowStep;
            }
          }
        }
        PrefixOfPrefix(fotos, i + 1, i);
        i := i + 1;
      }
      TakeAll(fotos);
      GridGuardHolds(fotos, y0, onDisk, fails, pageTop);
      if count > 0 || (count == 0 && xFotos == GridLeft) {
        y := if count > 0 then yFotos + RowStep else yFotos;
      }
    }
  }

  // ---------------------------------------------------------------------
  // One person's section (lines 90-205)
  // ---------------------------------------------------------------------

  /** The text under the badge: the tasks of an attended person, the reason
      of one who was not. */
  datatype Body = Tasks(block: TaskBlock) | Motivo(text: string)

  /** What a person's section shows: the badge, the body, the photos handed
      to the grid when a grid is drawn, and the signature image path when a
      signature is drawn. */
  datatype Section = Section(badge: string, body: Body, grid: Option<seq<string>>, signature: Option<string>)

  /** `u.get(key, default)`. */
  function Get(p: Person, key: string, default: Value): Value {
    if key in p then p[key] else default
  }

  /** The paths of a list of JSON strings, or None when an entry is not a
      string. */
  function PathList(vs: seq<Value>): (r: Option<seq<string>>)
    ensures r.Some? <==> forall i :: 0 <= i < |vs| ==> vs[i].Str?
    ensures r.Some? ==> |r.value| == |vs| && forall i :: 0 <= i < |vs| ==> r.value[i] == vs[i].s
  {
    if vs == [] then Some([])
    else
      match PathList(vs[..|vs| - 1])
      case None => None
      case Some(init) => if vs[|vs| - 1].Str? then Some(init + [vs[|vs| - 1].s]) else None
  }

  /** Lines 90-205 for one person. None when the record lacks `nombre` or
      `atendido` (the indexing raises), or holds a value outside the model:
      a `trabajo` or `motivo` that is not a string, a truthy `fotos` that is
      not a list of strings, or a truthy `firma` that is not a string. */
  function PlanSection(p: Person, onDisk: set<string>): Option<Section> {
    if "nombre" !in p || "atendido" !in p then None
    else
      var attended := Truthy(p["atendido"]);
      var badge := if attended then "  ATENDIDO  " else " NO ATENDIDO ";
      var text := if attended then Get(p, "trabajo", Str("")) else Get(p, "motivo", Str(""));
      var fotos := Get(p, "fotos", Null);
      var firma := Get(p, "firma", Null);
      if !text.Str? then None
      else if Truthy(fotos) && attended && (!fotos.Arr? || PathList(fotos.items).None?) then None
      else if Truthy(firma) && !firma.Str? then None
      else
        var body := if attended then Tasks(TaskItems(text.s)) else Motivo(text.s);
        var grid := if Truthy(fotos) && attended then Some(PathList(fotos.items).value) else None;
        var signature := if Truthy(firma) && firma.s in onDisk then Some(firma.s) else None;
        Some(Section(badge, body, grid, signature))
  }

  /** A person who was not attended shows the reason (empty by default) and
      never a photo grid, whatever photos the record holds; an attended one
      shows the tasks, and a grid exactly when its photo list is non-empty. */
  lemma SectionBranches(p: Person, onDisk: set<string>)
    requires PlanSection(p, onDisk).Some?
    ensures var s := PlanSection(p, onDisk).value;
            && (!Truthy(p["atendido"]) ==>
                  s.badge == " NO ATENDIDO " && s.grid.None?
                  && s.body == Motivo(if "motivo" in p then p["motivo"].s else ""))
            && (Truthy(p["atendido"]) ==>
                  s.badge == "  ATENDIDO  "
                  && s.body == Tasks(TaskItems(if "trabajo" in p then p["trabajo"].s else ""))
                  && (s.grid.Some? <==> "fotos" in p && p["fotos"].Arr? && p["fotos"].items != []))
            && (s.signature.Some? <==> "firma" in p && p["firma"].Str? && p["firma"].s != "" && p["firma"].s in onDisk)
  {
  }

  /** Line 221: the observations block, with its fixed text when empty. */
  function ObservationsText(obs: string): (r: string)
    ensures r != ""
    ensures obs != "" ==> r == obs
  {
    if obs != "" then obs else "Sin observaciones adicionales."
  }

  // ---------------------------------------------------------------------
  // Output file name (lines 228-231)
  // ---------------------------------------------------------------------

  /** `str.isalnum()` on the Latin-1 range: ASCII letters and digits, the
      Latin-1 letters, and the superscript digits and vulgar fractions. */
  predicate IsAlnum(c: char) {
    || ('0' <= c <= '9') || ('A' <= c <= 'Z') || ('a' <= c <= 'z')
    || c == '\U{aa}' || c == '\U{b2}' || c == '\U{b3}' || c == '\U{b5}' || c == '\U{b9}' || c == '\U{ba}'
    || ('\U{bc}' <= c <= '\U{be}')
    || ('\U{c0}' <= c <= '\U{d6}') || ('\U{d8}' <= c <= '\U{f6}') || ('\U{f8}' <= c <= '\U{ff}')
  }

  /** Line 229: the characters a client name keeps in the file name. */
  predicate NameChar(c: char) {
    IsAlnum(c) || c == ' ' || c == '-' || c == '_'
  }

  /** Line 229: the client name reduced to name characters, in order,
      without outer whitespace. */
  function CleanClientName(cliente: string): (r: string)
    ensures Trimmed(r)
    ensures forall i :: 0 <= i < |r| ==> NameChar(r[i]) && r[i] in cliente
  {
    var kept := Filter(cliente, NameChar);
    StripKeeps(kept, NameChar);
    StripKeeps(kept, c => c in cliente);
    Strip(kept)
  }

  /** The name characters are kept in their order: cleaning works piece by
      piece, stripping only the joined result. */
  lemma CleanClientNameKeepsOthers(a: string, b: string)
    ensures CleanClientName(a + b) == Strip(Filter(a, NameChar) + Filter(b, NameChar))
  {
    FilterAppend(a, b, NameChar);
  }

  /** A clean name padded with spaces and characters that are not name
      characters cleans back to itself. */
  lemma CleanClientNameUnpads(left: string, name: string, right: string)
    requires forall i :: 0 <= i < |left| ==> left[i] == ' ' || !NameChar(left[i])
    requires forall i :: 0 <= i < |right| ==> right[i] == ' ' || !NameChar(right[i])
    requires name != "" && Trimmed(name)
    requires forall i :: 0 <= i < |name| ==> NameChar(name[i])
    ensures CleanClientName(left + name + right) == name
  {
    FilterAppend(left, name, NameChar);
    FilterAppend(left + name, right, NameChar);
    FilterAllKept(name, NameChar);
    FilterLeavesSpaces(left);
    FilterLeavesSpaces(right);
    StripPadding(Filter(left, NameChar), name, Filter(right, NameChar));
  }

  /** Of spaces and characters that are not name characters, only the
      spaces are kept. */
  lemma FilterLeavesSpaces(s: string)
    requires forall i :: 0 <= i < |s| ==> s[i] == ' ' || !NameChar(s[i])
    ensures forall i :: 0 <= i < |Filter(s, NameChar)| ==> IsSpace(Filter(s, NameChar)[i])
  {
  }

  /** Line 230: the report's file name; `stamp` is the `%Y%m%d_%H%M` time. */
  function ReportFileName(cliente: string, stamp: string): string {
    "Reporte_" + CleanClientName(cliente) + "_" + stamp + ".pdf"
  }

  /** A clean name is its own cleaning, so cleaning twice changes nothing. */
  lemma CleanClientNameFixes(name: string)
    requires Trimmed(name)
    requires forall i :: 0 <= i < |name| ==> NameChar(name[i])
    ensures CleanClientName(name) == name
  {
    FilterAllKept(name, NameChar);
    StripTrimmed(name);
  }

  lemma CleanClientNameIdempotent(cliente: string)
    ensures CleanClientName(CleanClientName(cliente)) == CleanClientName(cliente)
  {
    CleanClientNameFixes(CleanClientName(cliente));
  }

  /** The file name has no '/' and no character outside the name set from
      the client, so it stays directly inside the temporary directory. */
  lemma ReportFileNameStaysInDir(tempDir: string, cliente: string, stamp: string)
    requires '/' !in stamp
    ensures '/' !in ReportFileName(cliente, stamp)
    ensures Basename(tempDir + "/" + ReportFileName(cliente, stamp)) == ReportFileName(cliente, stamp)
  {
    var c := CleanClientName(cliente);
    NameCharsNoSlash(c);
    ReportPartsNoSlash(c, stamp);
    var name := ReportFileName(cliente, stamp);
    BasenameOfJoin(tempDir, name);
  }

  lemma NameCharsNoSlash(c: string)
    requires forall i :: 0 <= i < |c| ==> NameChar(c[i])
    ensures '/' !in c
  {
  }

  lemma ReportPartsNoSlash(c: string, stamp: string)
    requires '/' !in c && '/' !in stamp
    ensures '/' !in "Reporte_" + c + "_" + stamp + ".pdf"
  {
    NotInParts("Reporte_", c, "_", stamp, ".pdf", '/');
  }

}
