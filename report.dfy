/**
 * The report generator: it selects the first records, computes the page
 * total before any content is written, and fills a five-column table with
 * a bold header row and one row of cells per record (id, full name,
 * profession, salary, and a status icon when the icon file exists).
 *
 * Requests and Paint are the specification of the table contents: Requests
 * lists the cell bodies in the order they are appended, Paint gives each
 * the background the table's completed-row count selects at that moment.
 */
module Report {
  import opened Wrappers
  import opened Styling
  import opened Formatting
  import opened Pagination
  import opened PdfTable

  datatype Profession = Profession(name: string)

  /** One loaded record; the salary stays a number until the currency formatter turns it into text. */
  datatype Person = Person(
    id: int, firstName: string, lastName: string,
    profession: Profession, salary: real, employed: bool)

  /** The page total handed to the page-event object, and the table as it is handed to the document. */
  datatype Document = Document(totalPages: nat, rows: seq<seq<Cell>>, pending: seq<Cell>)

  /** Columns of the report table: code, name, profession, salary, status. */
  const Columns: nat := 5

  /** How many records the program puts in a report. */
  const SelectionSize: int := 100

  /** Status icons, relative to the program's base directory. */
  const HappyIcon: string := "img\\emoji_feliz.png"
  const SadIcon: string := "img\\emoji_triste.png"

  /** Side of the box a status icon is scaled to fit. */
  const IconSize: nat := 20

  /** The first `count` elements of `s`, or all of them when there are fewer; none for `count <= 0`. */
  function Take<T>(s: seq<T>, count: int): (r: seq<T>)
    ensures |r| == if count <= 0 then 0 else if count < |s| then count else |s|
    ensures r == s[..|r|]
  {
    if count <= 0 then [] else if count < |s| then s[..count] else s
  }

  /** The status icon: the happy face for an employed person, the sad face otherwise. */
  function IconPath(employed: bool): (path: string)
  {
    if employed then HappyIcon else SadIcon
  }

  function FullName(p: Person): string
  {
    p.firstName + " " + p.lastName
  }

  /** A text cell with the helper's defaults: not italic, size 12, height 25. */
  function PlainText(text: string, align: HAlign, bold: bool): CellBody
  {
    TextBody(text, align, bold, false, DefaultFontSize, DefaultCellHeight)
  }

  /** The header row: five bold captions. */
  function HeaderBodies(): seq<CellBody>
  {
    [ PlainText("Código", Center, true),
      PlainText("Nome", Left, true),
      PlainText("Profissão", Center, true),
      PlainText("Salário", Center, true),
      PlainText("Empregada", Center, true) ]
  }

  /** The four text cells of a record. */
  function RecordTexts(p: Person, currency: real -> string): seq<CellBody>
  {
    [ PlainText(FormatD6(p.id), Center, false),
      PlainText(FullName(p), Left, false),
      PlainText(p.profession.name, Center, false),
      PlainText(currency(p.salary), Right, false) ]
  }

  /** The status icon cell, present only when the icon file exists. */
  function IconBodies(p: Person, assets: set<string>): seq<CellBody>
  {
    if IconPath(p.employed) in assets
    then [ImageBody(IconPath(p.employed), IconSize, IconSize, DefaultCellHeight)]
    else []
  }

  function RecordBodies(p: Person, assets: set<string>, currency: real -> string): seq<CellBody>
  {
    RecordTexts(p, currency) + IconBodies(p, assets)
  }

  /** The cells of each record, one group per record. */
  function RecordChunks(ps: seq<Person>, assets: set<string>, currency: real -> string): (chunks: seq<seq<CellBody>>)
    ensures |chunks| == |ps|
  {
    seq(|ps|, i requires 0 <= i < |ps| => RecordBodies(ps[i], assets, currency))
  }

  /** The cells of the records, in order. */
  function RecordsBodies(ps: seq<Person>, assets: set<string>, currency: real -> string): seq<CellBody>
  {
    Flatten(RecordChunks(ps, assets, currency))
  }

  /** The groups of a prefix of the records are a prefix of the groups. */
  lemma RecordChunksPrefix(ps: seq<Person>, k: nat, assets: set<string>, currency: real -> string)
    requires k <= |ps|
    ensures RecordChunks(ps[..k], assets, currency) == RecordChunks(ps, assets, currency)[..k]
  {
  }

  /** Every cell body the report appends, in append order. */
  function Requests(sel: seq<Person>, assets: set<string>, currency: real -> string): seq<CellBody>
  {
    HeaderBodies() + RecordsBodies(sel, assets, currency)
  }

  /** How many of the records lack their status icon. */
  function MissingIcons(ps: seq<Person>, assets: set<string>): (m: nat)
    ensures m <= |ps|
  {
    if ps == [] then 0
    else MissingIcons(ps[..|ps| - 1], assets) + (if IconPath(ps[|ps| - 1].employed) in assets then 0 else 1)
  }

  /**
   * The cells appended one by one: each gets the background selected by the
   * number of rows completed when it is appended, which is its position
   * divided by the column count.
   */
  function Paint(bodies: seq<CellBody>): (cells: seq<Cell>)
    ensures |cells| == |bodies|
  {
    if bodies == [] then []
    else
      var n := |bodies| - 1;
      Paint(bodies[..n]) + [Cell(bodies[n], BackgroundFor(n / Columns))]
  }

  /** Cell `i` keeps its body and gets the background of row `i / 5`, so alternation never restarts. */
  lemma {:induction false} PaintAt(bodies: seq<CellBody>, i: nat)
    requires i < |bodies|
    ensures Paint(bodies)[i] == Cell(bodies[i], BackgroundFor(i / Columns))
  {
    var n := |bodies| - 1;
    if i < n {
      PaintAt(bodies[..n], i);
    }
  }

  lemma PaintSnoc(bodies: seq<CellBody>, b: CellBody)
    ensures Paint(bodies + [b]) == Paint(bodies) + [Cell(b, BackgroundFor(|bodies| / Columns))]
  {
    assert (bodies + [b])[..|bodies|] == bodies;
  }

  /** One more record adds its own cells at the end. */
  lemma RecordsBodiesSnoc(sel: seq<Person>, i: nat, assets: set<string>, currency: real -> string)
    requires i < |sel|
    ensures RecordsBodies(sel[..i + 1], assets, currency)
      == RecordsBodies(sel[..i], assets, currency) + RecordBodies(sel[i], assets, currency)
  {
    var chunks := RecordChunks(sel[..i + 1], assets, currency);
    RecordChunksPrefix(sel[..i + 1], i, assets, currency);
    assert sel[..i + 1][..i] == sel[..i];
    assert chunks[..i] == RecordChunks(sel[..i], assets, currency);
  }

  lemma RequestsSnoc(sel: seq<Person>, i: nat, assets: set<string>, currency: real -> string)
    requires i < |sel|
    ensures Requests(sel[..i + 1], assets, currency)
      == Requests(sel[..i], assets, currency) + RecordBodies(sel[i], assets, currency)
  {
    RecordsBodiesSnoc(sel, i, assets, currency);
    Associative(HeaderBodies(), RecordsBodies(sel[..i], assets, currency), RecordBodies(sel[i], assets, currency));
  }

  lemma Associative(a: seq<CellBody>, b: seq<CellBody>, c: seq<CellBody>)
    ensures a + (b + c) == a + b + c
  {
  }

  lemma SnocFour(start: seq<CellBody>, four: seq<CellBody>)
    requires |four| == 4
    ensures start + [four[0]] + [four[1]] + [four[2]] + [four[3]] == start + four
  {
  }

  /** Appends a text cell whose background follows the table's completed-row count. */
  method AddTextCell(t: Table, text: string, align: HAlign, bold: bool, italic: bool, fontSize: nat, height: nat)
    requires t.Valid()
    modifies t
    ensures t.Valid()
    ensures t.cells == old(t.cells) + [Cell(TextBody(text, align, bold, italic, fontSize, height), BackgroundFor(old(t.RowCount())))]
  {
    var style := StyleFor(bold, italic);
    var background := if t.RowCount() % 2 == 1 then LightGray else White;
    var body := CellBody(Text(text, style, fontSize), align, height, BottomBorderWidth);
    t.AddCell(Cell(body, background));
  }

  /** Appends a centred image cell when the image file exists; otherwise leaves the table as it was. */
  method AddImageCell(t: Table, path: string, assets: set<string>, fitWidth: nat, fitHeight: nat, height: nat)
    requires t.Valid()
    modifies t
    ensures t.Valid()
    ensures path in assets ==>
      t.cells == old(t.cells) + [Cell(ImageBody(path, fitWidth, fitHeight, height), BackgroundFor(old(t.RowCount())))]
    ensures path !in assets ==> t.rows == old(t.rows) && t.pending == old(t.pending) && t.cells == old(t.cells)
  {
    var background := if t.RowCount() % 2 == 1 then LightGray else White;
    if path in assets {
      var body := CellBody(Picture(path, fitWidth, fitHeight), Center, height, BottomBorderWidth);
      t.AddCell(Cell(body, background));
    }
  }

  /** Appends the five bold column captions to an empty table. */
  method AddHeader(t: Table)
    requires t.Valid() && t.columns == Columns && t.cells == []
    modifies t
    ensures t.Valid() && t.cells == Paint(HeaderBodies())
  {
    ghost var done: seq<CellBody> := [];
    ghost var header := HeaderBodies();
    AddTextCell(t, "Código", Center, true, false, DefaultFontSize, DefaultCellHeight);
    PaintSnoc(done, header[0]);
    done := done + [header[0]];
    AddTextCell(t, "Nome", Left, true, false, DefaultFontSize, DefaultCellHeight);
    PaintSnoc(done, header[1]);
    done := done + [header[1]];
    AddTextCell(t, "Profissão", Center, true, false, DefaultFontSize, DefaultCellHeight);
    PaintSnoc(done, header[2]);
    done := done + [header[2]];
    AddTextCell(t, "Salário", Center, true, false, DefaultFontSize, DefaultCellHeight);
    PaintSnoc(done, header[3]);
    done := done + [header[3]];
    AddTextCell(t, "Empregada", Center, true, false, DefaultFontSize, DefaultCellHeight);
    PaintSnoc(done, header[4]);
    done := done + [header[4]];
    assert done == header;
  }

  /**
   * Appends one record's cells: id, full name, profession and salary, then
   * the status icon when its file exists. `before` lists the bodies already
   * appended.
   */
  method AddRecord(t: Table, p: Person, assets: set<string>, currency: real -> string, ghost before: seq<CellBody>)
    requires t.Valid() && t.columns == Columns && t.cells == Paint(before)
    modifies t
    ensures t.Valid() && t.cells == Paint(before + RecordBodies(p, assets, currency))
  {
    var code, name, job, salary := FormatD6(p.id), p.firstName + " " + p.lastName, p.profession.name, currency(p.salary);
    ghost var b0, b1, b2, b3 := PlainText(code, Center, false), PlainText(name, Left, false),
                                PlainText(job, Center, false), PlainText(salary, Right, false);
    ghost var done := before;
    AddTextCell(t, code, Center, false, false, DefaultFontSize, DefaultCellHeight);
    assert t.cells == Paint(done + [b0]) by { PaintSnoc(done, b0); }
    done := done + [b0];
    AddTextCell(t, name, Left, false, false, DefaultFontSize, DefaultCellHeight);
    assert t.cells == Paint(done + [b1]) by { PaintSnoc(done, b1); }
    done := done + [b1];
    AddTextCell(t, job, Center, false, false, DefaultFontSize, DefaultCellHeight);
    assert t.cells == Paint(done + [b2]) by { PaintSnoc(done, b2); }
    done := done + [b2];
    AddTextCell(t, salary, Right, false, false, DefaultFontSize, DefaultCellHeight);
    assert t.cells == Paint(done + [b3]) by { PaintSnoc(done, b3); }
    done := done + [b3];
    assert done == before + RecordTexts(p, currency) by {
      assert RecordTexts(p, currency) == [b0, b1, b2, b3];
      SnocFour(before, [b0, b1, b2, b3]);
    }
    var icon := if p.employed then HappyIcon else SadIcon;
    assert icon == IconPath(p.employed);
    AddImageCell(t, icon, assets, IconSize, IconSize, DefaultCellHeight);
    if icon in assets {
      var b := ImageBody(icon, IconSize, IconSize, DefaultCellHeight);
      assert t.cells == Paint(done + [b]) by { PaintSnoc(done, b); }
      done := done + [b];
    }
    assert done == before + RecordBodies(p, assets, currency) by {
      Associative(before, RecordTexts(p, currency), IconBodies(p, assets));
    }
  }

  /** What the finished table holds for the selected records: their cells, in full rows of five plus a pending tail. */
  predicate Assembled(rows: seq<seq<Cell>>, pending: seq<Cell>, sel: seq<Person>, assets: set<string>, currency: real -> string)
  {
    Uniform(rows, Columns) && |pending| < Columns
    && Flatten(rows) + pending == Paint(Requests(sel, assets, currency))
  }

  /**
   * Builds the report for the first `count` records: nothing when none is
   * selected; otherwise the page total, computed before the table, and the
   * table holding the header and every record's cells.
   */
  method GenerateReport(people: seq<Person>, count: int, assets: set<string>, currency: real -> string)
    returns (doc: Option<Document>)
    ensures doc.None? <==> Take(people, count) == []
    ensures doc.Some? ==> doc.value.totalPages == TotalPages(|Take(people, count)|)
    ensures doc.Some? ==> Assembled(doc.value.rows, doc.value.pending, Take(people, count), assets, currency)
  {
    var sel := Take(people, count);
    if |sel| == 0 {
      return None;
    }
    var totalPages := TotalPages(|sel|);

    var table := new Table(Columns);
    AddHeader(table);
    assert sel[..0] == [];
    assert Requests(sel[..0], assets, currency) == HeaderBodies() + [];
    assert HeaderBodies() + [] == HeaderBodies();

    for i := 0 to |sel|
      invariant table.Valid() && table.columns == Columns
      invariant table.cells == Paint(Requests(sel[..i], assets, currency))
    {
      AddRecord(table, sel[i], assets, currency, Requests(sel[..i], assets, currency));
      RequestsSnoc(sel, i, assets, currency);
    }
    assert sel[..|sel|] == sel;
    return Some(Document(totalPages, table.rows, table.pending));
  }

  /** The header: five bold captions, centred except the name column, all 25 high. */
  lemma HeaderShape()
    ensures |HeaderBodies()| == Columns
    ensures forall j :: 0 <= j < Columns ==>
      HeaderBodies()[j].content.Text? && HeaderBodies()[j].content.style == Bold
      && HeaderBodies()[j].fixedHeight == DefaultCellHeight && HeaderBodies()[j].bottomBorder == BottomBorderWidth
    ensures HeaderBodies()[0].align == Center && HeaderBodies()[1].align == Left
    ensures HeaderBodies()[2].align == Center && HeaderBodies()[3].align == Center && HeaderBodies()[4].align == Center
  {
  }

  /**
   * A record's cells: the id zero-padded and centred, the full name on the
   * left, the profession centred, the salary on the right, all in the normal
   * style; then the centred icon, only when its file exists.
   */
  lemma RecordShape(p: Person, assets: set<string>, currency: real -> string)
    ensures var b := RecordBodies(p, assets, currency);
      && |b| == (if IconPath(p.employed) in assets then Columns else Columns - 1)
      && b[0].content == Text(FormatD6(p.id), Normal, DefaultFontSize) && b[0].align == Center
      && b[1].content == Text(p.firstName + " " + p.lastName, Normal, DefaultFontSize) && b[1].align == Left
      && b[2].content == Text(p.profession.name, Normal, DefaultFontSize) && b[2].align == Center
      && b[3].content == Text(currency(p.salary), Normal, DefaultFontSize) && b[3].align == Right
      && (|b| == Columns ==> b[4].content == Picture(if p.employed then HappyIcon else SadIcon, IconSize, IconSize) && b[4].align == Center)
  {
  }

  /** A record has five cells, or four when its icon file is missing. */
  lemma RecordWidth(p: Person, assets: set<string>, currency: real -> string)
    ensures |RecordBodies(p, assets, currency)| == if IconPath(p.employed) in assets then Columns else Columns - 1
  {
    assert |RecordTexts(p, currency)| == Columns - 1;
  }

  /** A record's first cell is its zero-padded id, centred. */
  lemma RecordCode(p: Person, assets: set<string>, currency: real -> string)
    ensures |RecordBodies(p, assets, currency)| > 0
    ensures RecordBodies(p, assets, currency)[0] == PlainText(FormatD6(p.id), Center, false)
  {
    var texts := RecordTexts(p, currency);
    assert texts[0] == PlainText(FormatD6(p.id), Center, false);
    assert RecordBodies(p, assets, currency)[0] == texts[0];
  }

  /** Each record adds five cells, one fewer when its icon is missing. */
  lemma {:induction false} RecordsLength(ps: seq<Person>, assets: set<string>, currency: real -> string)
    ensures |RecordsBodies(ps, assets, currency)| == Columns * |ps| - MissingIcons(ps, assets)
  {
    if ps != [] {
      var n := |ps| - 1;
      RecordsLength(ps[..n], assets, currency);
      RecordsBodiesSnoc(ps, n, assets, currency);
      assert ps[..n + 1] == ps;
    }
  }

  /** Every record's status icon file exists. */
  predicate IconsPresent(ps: seq<Person>, assets: set<string>)
  {
    forall i :: 0 <= i < |ps| ==> IconPath(ps[i].employed) in assets
  }

  /** No icon is missing exactly when every icon file exists. */
  lemma {:induction false} NoMissingIcons(ps: seq<Person>, assets: set<string>)
    ensures MissingIcons(ps, assets) == 0 <==> IconsPresent(ps, assets)
  {
    if ps != [] {
      var init := ps[..|ps| - 1];
      NoMissingIcons(init, assets);
      assert IconsPresent(ps, assets) <==> IconsPresent(init, assets) && IconPath(ps[|ps| - 1].employed) in assets;
    }
  }

  /** A prefix of the records misses no more icons than all of them. */
  lemma {:induction false} MissingIconsPrefix(ps: seq<Person>, k: nat, assets: set<string>)
    requires k <= |ps|
    ensures MissingIcons(ps[..k], assets) <= MissingIcons(ps, assets)
    decreases |ps|
  {
    if k < |ps| {
      var init := ps[..|ps| - 1];
      assert init[..k] == ps[..k];
      MissingIconsPrefix(init, k, assets);
    } else {
      assert ps[..k] == ps;
    }
  }

  /**
   * Record `k`'s cells start after `Columns * k` cells of the earlier
   * records, less one for every earlier missing icon.
   */
  lemma RecordPlacement(ps: seq<Person>, k: nat, j: nat, assets: set<string>, currency: real -> string)
    requires k < |ps| && j < |RecordBodies(ps[k], assets, currency)|
    ensures var start := Columns * k - MissingIcons(ps[..k], assets);
      && 0 <= start && start + j < |RecordsBodies(ps, assets, currency)|
      && RecordsBodies(ps, assets, currency)[start + j] == RecordBodies(ps[k], assets, currency)[j]
  {
    var chunks := RecordChunks(ps, assets, currency);
    var start := Columns * k - MissingIcons(ps[..k], assets);
    assert |Flatten(chunks[..k])| == start by {
      PrefixLength(ps, k, assets, currency);
    }
    assert start + j < |Flatten(chunks)| && Flatten(chunks)[start + j] == chunks[k][j] by {
      FlattenPlacement(chunks, k, j);
    }
    assert chunks[k] == RecordBodies(ps[k], assets, currency);
  }

  /** The records before record `k` contribute `Columns * k` cells, less their missing icons. */
  lemma PrefixLength(ps: seq<Person>, k: nat, assets: set<string>, currency: real -> string)
    requires k <= |ps|
    ensures |Flatten(RecordChunks(ps, assets, currency)[..k])| == Columns * k - MissingIcons(ps[..k], assets)
  {
    RecordChunksPrefix(ps, k, assets, currency);
    RecordsLength(ps[..k], assets, currency);
  }

  /**
   * Record `k`'s cells follow the header and the cells of the records before
   * it, so every missing icon shifts all later cells one place left.
   */
  lemma RequestPlacement(sel: seq<Person>, k: nat, j: nat, assets: set<string>, currency: real -> string)
    requires k < |sel| && j < |RecordBodies(sel[k], assets, currency)|
    ensures var at := Columns * (k + 1) - MissingIcons(sel[..k], assets) + j;
      && 0 <= at < |Requests(sel, assets, currency)|
      && Requests(sel, assets, currency)[at] == RecordBodies(sel[k], assets, currency)[j]
  {
    var m := MissingIcons(sel[..k], assets);
    assert m <= k by {
      MissingIconsPrefix(sel, k, assets);
    }
    var i := Columns * k - m + j;
    var mine := RecordBodies(sel[k], assets, currency);
    assert i < |RecordsBodies(sel, assets, currency)| && RecordsBodies(sel, assets, currency)[i] == mine[j] by {
      RecordPlacement(sel, k, j, assets, currency);
    }
    RequestsAt(sel, i, assets, currency);
    assert Columns + i == Columns * (k + 1) - m + j;
  }

  /** Past the header, the requests are the records' cells. */
  lemma RequestsAt(sel: seq<Person>, i: nat, assets: set<string>, currency: real -> string)
    requires i < |RecordsBodies(sel, assets, currency)|
    ensures Columns + i < |Requests(sel, assets, currency)|
    ensures Requests(sel, assets, currency)[Columns + i] == RecordsBodies(sel, assets, currency)[i]
  {
  }

  /**
   * Painting places body `Columns * r + j` in row `r`, column `j`, with the
   * background that row `r` selects.
   */
  lemma RowsOfPaint(rows: seq<seq<Cell>>, pending: seq<Cell>, bodies: seq<CellBody>, r: nat, j: nat)
    requires Uniform(rows, Columns) && Flatten(rows) + pending == Paint(bodies)
    requires r < |rows| && j < Columns
    ensures Columns * r + j < |bodies|
    ensures rows[r][j] == Cell(bodies[Columns * r + j], BackgroundFor(r))
  {
    var at := Columns * r + j;
    var cells := Paint(bodies);
    assert at < |Flatten(rows)| && cells[at] == rows[r][j] by {
      FlattenAt(rows, Columns, r, j);
      assert (Flatten(rows) + pending)[at] == Flatten(rows)[at];
    }
    assert at / Columns == r by {
      DivModGrid(Columns, r, j);
    }
    PaintAt(bodies, at);
  }

  /**
   * The id cell of record `k` sits at `5 * (k + 1) - m`, where `m` counts
   * the missing icons before it, and its background is chosen by the row it
   * lands in, not by the record's own position; it starts a row exactly
   * when `m` is a multiple of five.
   */
  lemma MissingIconShiftsGrid(sel: seq<Person>, k: nat, assets: set<string>, currency: real -> string)
    requires k < |sel|
    ensures var at := Columns * (k + 1) - MissingIcons(sel[..k], assets);
      && 0 <= at < |Paint(Requests(sel, assets, currency))|
      && Paint(Requests(sel, assets, currency))[at]
         == Cell(PlainText(FormatD6(sel[k].id), Center, false), BackgroundFor(at / Columns))
      && (at % Columns == 0 <==> MissingIcons(sel[..k], assets) % Columns == 0)
  {
    var requests := Requests(sel, assets, currency);
    var m := MissingIcons(sel[..k], assets);
    var at := Columns * (k + 1) - m;
    assert at < |requests| && requests[at] == PlainText(FormatD6(sel[k].id), Center, false) by {
      IdRequest(sel, k, assets, currency);
    }
    PaintAt(requests, at);
    ShiftColumn(k, m);
  }

  /** The id cell of record `k` is request `5 * (k + 1) - m`. */
  lemma IdRequest(sel: seq<Person>, k: nat, assets: set<string>, currency: real -> string)
    requires k < |sel|
    ensures var at := Columns * (k + 1) - MissingIcons(sel[..k], assets);
      && 0 <= at < |Requests(sel, assets, currency)|
      && Requests(sel, assets, currency)[at] == PlainText(FormatD6(sel[k].id), Center, false)
  {
    RecordCode(sel[k], assets, currency);
    RequestPlacement(sel, k, 0, assets, currency);
  }

  /** Shifting five-cell records left by `m` cells leaves a record start on a row start exactly when `m` is a multiple of five. */
  lemma ShiftColumn(k: nat, m: nat)
    requires m <= k
    ensures (Columns * (k + 1) - m) % Columns == 0 <==> m % Columns == 0
  {
  }

  /**
   * When every icon exists each record fills exactly one row, and the
   * finished table has the header row plus one row per record and nothing
   * pending.
   */
  lemma AllIconsRowCount(rows: seq<seq<Cell>>, pending: seq<Cell>, sel: seq<Person>, assets: set<string>, currency: real -> string)
    requires Assembled(rows, pending, sel, assets, currency)
    requires IconsPresent(sel, assets)
    ensures |rows| == |sel| + 1 && pending == []
  {
    NoMissingIcons(sel, assets);
    RecordsLength(sel, assets, currency);
    GridShape(rows, pending, Columns);
  }

  /** The header is the first completed row, and it is white. */
  lemma HeaderRowWhite(rows: seq<seq<Cell>>, pending: seq<Cell>, sel: seq<Person>, assets: set<string>, currency: real -> string, j: nat)
    requires Assembled(rows, pending, sel, assets, currency)
    requires j < Columns
    ensures |rows| >= 1 && rows[0][j] == Cell(HeaderBodies()[j], White)
  {
    var requests := Requests(sel, assets, currency);
    assert |requests| >= Columns && requests[j] == HeaderBodies()[j];
    GridShape(rows, pending, Columns);
    RowsOfPaint(rows, pending, requests, 0, j);
  }

  /**
   * With every icon present, data row `k + 1` holds record `k`'s cells, and
   * is gray exactly when `k + 1` is odd: the alternation runs over the whole
   * table and never restarts.
   */
  lemma AllIconsRowsAlternate(rows: seq<seq<Cell>>, pending: seq<Cell>, sel: seq<Person>, assets: set<string>, currency: real -> string, k: nat, j: nat)
    requires Assembled(rows, pending, sel, assets, currency)
    requires IconsPresent(sel, assets)
    requires k < |sel| && j < Columns
    ensures k + 1 < |rows|
    ensures rows[k + 1][j] == Cell(RecordBodies(sel[k], assets, currency)[j], if (k + 1) % 2 == 1 then LightGray else White)
  {
    AllIconsRowCount(rows, pending, sel, assets, currency);
    AllIconsPlacement(sel, k, j, assets, currency);
    RowsOfPaint(rows, pending, Requests(sel, assets, currency), k + 1, j);
  }

  /** With every icon present, record `k`'s cells are requests `5 * (k + 1)` to `5 * (k + 1) + 4`. */
  lemma AllIconsPlacement(sel: seq<Person>, k: nat, j: nat, assets: set<string>, currency: real -> string)
    requires IconsPresent(sel, assets)
    requires k < |sel| && j < Columns
    ensures j < |RecordBodies(sel[k], assets, currency)|
    ensures Columns * (k + 1) + j < |Requests(sel, assets, currency)|
    ensures Requests(sel, assets, currency)[Columns * (k + 1) + j] == RecordBodies(sel[k], assets, currency)[j]
  {
    var m := MissingIcons(sel[..k], assets);
    assert m == 0 by {
      NoMissingIcons(sel, assets);
      MissingIconsPrefix(sel, k, assets);
    }
    assert j < |RecordBodies(sel[k], assets, currency)| by {
      assert IconPath(sel[k].employed) in assets;
      RecordWidth(sel[k], assets, currency);
    }
    RequestPlacement(sel, k, j, assets, currency);
  }

  /**
   * The program's entry point after loading: a report of the first 100
   * records, none when nothing was loaded, with the page total of the
   * selection, which is never more than four pages.
   */
  method Run(loaded: seq<Person>, assets: set<string>, currency: real -> string)
    returns (doc: Option<Document>)
    ensures doc.None? <==> loaded == []
    ensures doc.Some? ==> doc.value.totalPages == TotalPages(|Take(loaded, SelectionSize)|)
    ensures doc.Some? ==> 1 <= doc.value.totalPages <= 4
    ensures doc.Some? ==> Assembled(doc.value.rows, doc.value.pending, Take(loaded, SelectionSize), assets, currency)
  {
    doc := GenerateReport(loaded, SelectionSize, assets, currency);
    if doc.Some? {
      TotalPagesAtMostFour(|Take(loaded, SelectionSize)|);
    }
  }
}
