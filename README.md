# PDF people report — verified model

This project models the core of the report generator in
`GeradorDeRelatoriosPDF/Program.cs`. The program loads a list of people,
selects the first 100 of them, and writes a PDF report about the selection.
The page-event object receives the report's page total before the first page
is written. The report holds a five-column table with a bold header row followed by one row per person: the zero-padded id, the full
name, the profession, the salary, and an icon that shows whether the person is
employed. The model covers:

- **Page-count calculator** (`pagination.dfy`). The first page holds 24 table
  rows, and each later page holds 29. The total is computed from the record
  count before any content is written. The source's float division
  `/ 29F` is modelled as exact real division followed by a ceiling. That total
  is proved equal to integer ceiling division, to be the least page count that
  holds every row, and to be monotone.
- **Cell styling** (`styling.dfy`). The bold and italic flags select one of
  four font styles. A cell is gray exactly when the table's completed-row count
  is odd at the moment the cell is appended.
- **Id formatting** (`formatting.dfy`). The .NET `"D6"` format is a sign,
  then the digits left-padded with zeros to six. `ParseDecimal` reads the text
  back, which gives a round trip.
- **The table** (`table.dfy`). The PDF library's table is a class with a
  fixed column count, the completed rows, and the pending cells of the row
  being filled. Appending the cell that fills the pending row completes that
  row. `Rows.Count` is the number of completed rows.
- **Report assembly** (`report.dfy`).
  - The two cell helpers (a text cell, and an image cell that is added only
    when its file exists).
  - The header, the per-record loop, and the selection and its guard.
  - `Requests` lists every cell body in append order. `Paint` gives cell `i`
    the background of row `i / 5`. The assembly methods are proved to produce
    exactly `Paint(Requests(...))`.
  - Lemmas over that specification:
    - the header row is white;
    - with every icon present, data row `k` holds record `k - 1` and is gray
      exactly when `k` is odd, so the alternation never restarts;
    - a missing icon shifts every later cell one place to the left, so rows
      then mix records, and backgrounds follow the rows the cells land in.

External inputs are parameters:
- `assets`: the set of image paths that exist. It stands in for `File.Exists`.
- `currency`: a function from salary to text. It stands in for the
  culture-dependent `ToString("C2")`.
- `loaded`: the list produced by the JSON loader.

## Model

| member | source | states |
|---|---|---|
| Pagination.TotalPages | GeradorDeRelatoriosPDF/Program.cs:41-44 | at least one page; the pages hold every row (24 on the first page, 29 on each later one); one page fewer would not |
| Pagination.TotalPagesIsLeast | GeradorDeRelatoriosPDF/Program.cs:41-44 | no page count whose capacity holds the rows is smaller than the computed one |
| Pagination.TotalPagesMonotone | GeradorDeRelatoriosPDF/Program.cs:41-44 | more rows never give fewer pages |
| Pagination.TotalPagesIntegral | GeradorDeRelatoriosPDF/Program.cs:41-44 | the real-valued ceiling equals `1 + (rows - 24 + 28) / 29` in integers for more than 24 rows, and 1 otherwise |
| Pagination.TotalPagesExamples | GeradorDeRelatoriosPDF/Program.cs:41-44 | 0, 1 and 24 rows give 1 page; 25 and 53 give 2; 54 gives 3 |
| Pagination.TotalPagesAtMostFour | GeradorDeRelatoriosPDF/Program.cs:20 | the 100-record selection never needs more than four pages |
| Pagination.Ceiling | GeradorDeRelatoriosPDF/Program.cs:44 | the result is the least integer not below its argument |
| Styling.StyleFor | GeradorDeRelatoriosPDF/Program.cs:149-161 | the chosen style is bold exactly when bold is asked for, and italic exactly when italic is asked for |
| Styling.StyleForOnto | GeradorDeRelatoriosPDF/Program.cs:149-161 | every style is produced by exactly one pair of flags |
| Styling.BackgroundFor | GeradorDeRelatoriosPDF/Program.cs:165-168 | gray exactly when the completed-row count is odd, white otherwise |
| Styling.BackgroundAlternates | GeradorDeRelatoriosPDF/Program.cs:184-187 | one more completed row flips the background; two more restore it |
| Formatting.Digits | GeradorDeRelatoriosPDF/Program.cs:113 | the decimal spelling of a number is never empty |
| Formatting.DigitsNoLeadingZero | GeradorDeRelatoriosPDF/Program.cs:113 | a number of two or more digits is spelled without a leading zero, so the spelling is the shortest one |
| Formatting.DigitsLength | GeradorDeRelatoriosPDF/Program.cs:113 | the spelling fits in `k` characters exactly when the number is below `10^k` |
| Formatting.PadZerosShape | GeradorDeRelatoriosPDF/Program.cs:113 | padding keeps the digits as the tail and puts only zeros in front |
| Formatting.FormatD6Shape | GeradorDeRelatoriosPDF/Program.cs:113 | a non-negative id shows as at least six digits, and more only when the id needs them; an id from 0 to 999999 shows as exactly six characters; a negative id starts with a minus sign |
| Formatting.FormatD6RoundTrip | GeradorDeRelatoriosPDF/Program.cs:113 | reading the id text back gives the id; for a negative id, reading after the sign gives its magnitude |
| Formatting.FormatD6Example | GeradorDeRelatoriosPDF/Program.cs:113 | id 7 shows as "000007" |
| Formatting.ParseDigits | GeradorDeRelatoriosPDF/Program.cs:113 | the digits of a number read back as the number |
| Formatting.ParseIgnoresZeros | GeradorDeRelatoriosPDF/Program.cs:113 | leading zeros do not change the value read |
| PdfTable.Table.constructor | GeradorDeRelatoriosPDF/Program.cs:97 | a new table has its column count, no rows and no pending cells |
| PdfTable.Table.AddCell | GeradorDeRelatoriosPDF/Program.cs:179 | the cell is appended; it completes the pending row exactly when the row reaches the column count; the table stays well formed |
| PdfTable.Table.RowCount | GeradorDeRelatoriosPDF/Program.cs:167 | the row count is the number of cells appended, divided by the column count |
| PdfTable.GridShape | GeradorDeRelatoriosPDF/Program.cs:167 | completed rows and pending cells are the quotient and remainder of the cell count by the column count |
| PdfTable.FlattenAt | GeradorDeRelatoriosPDF/Program.cs:179 | cell `j` of completed row `k` is the cell appended in position `5k + j` |
| Report.Take | GeradorDeRelatoriosPDF/Program.cs:37 | the selection is the first `count` records in their order, all of them when there are fewer, and none for a non-positive count |
| Report.AddTextCell | GeradorDeRelatoriosPDF/Program.cs:142-180 | exactly one cell is appended, with the given text, alignment, size and height, the style of the two flags, a bottom border, and the background of the completed-row count at that moment |
| Report.AddImageCell | GeradorDeRelatoriosPDF/Program.cs:182-203 | when the file exists, one centred image cell is appended with the background of the completed-row count; otherwise the table is unchanged |
| Report.AddHeader | GeradorDeRelatoriosPDF/Program.cs:104-108 | an empty table receives the five bold captions, painted by position |
| Report.AddRecord | GeradorDeRelatoriosPDF/Program.cs:113-120 | the table receives the record's cells (id, name, profession, salary, icon when present), each painted by its position |
| Report.GenerateReport | GeradorDeRelatoriosPDF/Program.cs:37-121 | no report exactly when the selection is empty; otherwise the page total of the selection size, and a table holding the header and every selected record's cells in order, in full rows of five plus a pending tail |
| Report.Run | GeradorDeRelatoriosPDF/Program.cs:17-21 | a report of the first 100 loaded records, none exactly when nothing was loaded; its page total is the page count of the selection size, and at most four |
| Pagination.Capacity | GeradorDeRelatoriosPDF/Program.cs:41-44 | the rows `pages` pages hold, the reference the page total is proved against: never less than the first page's 24 |
| Report.MissingIcons | GeradorDeRelatoriosPDF/Program.cs:189 | the records whose icon file does not exist; never more than the records |
| Report.Paint | GeradorDeRelatoriosPDF/Program.cs:165-168 | the cells appended one by one, one painted cell per body |
| Report.RequestsAt | GeradorDeRelatoriosPDF/Program.cs:104-120 | the cell bodies in append order: the five header captions, then request `5 + i` is the records' cell `i` |
| Report.PaintAt | GeradorDeRelatoriosPDF/Program.cs:165-168 | the cell appended in position `i` keeps its body and gets the background of row `i / 5`, so the alternation never restarts |
| Report.HeaderShape | GeradorDeRelatoriosPDF/Program.cs:104-108 | five bold captions of height 25, centred except the name column |
| Report.RecordShape | GeradorDeRelatoriosPDF/Program.cs:113-120 | a record's cells: the id in D6 centred, the full name ("first last") on the left, the profession centred, the salary on the right, all in the normal style, then the centred icon only when its file exists: the happy face for an employed person, the sad face otherwise |
| Report.RecordWidth | GeradorDeRelatoriosPDF/Program.cs:118-120 | a record adds five cells, or four when its icon file is missing |
| Report.RecordCode | GeradorDeRelatoriosPDF/Program.cs:113 | a record's first cell is its zero-padded id, centred |
| Report.RecordsLength | GeradorDeRelatoriosPDF/Program.cs:111-121 | the records add five cells each, less one per missing icon |
| Report.NoMissingIcons | GeradorDeRelatoriosPDF/Program.cs:189 | no icon is missing exactly when every record's icon file exists |
| Report.RequestPlacement | GeradorDeRelatoriosPDF/Program.cs:189-202 | record `k`'s cells are appended at position `5 (k + 1) - m`, where `m` counts the missing icons of the earlier records, so every missing icon shifts all later cells one place left |
| Report.MissingIconShiftsGrid | GeradorDeRelatoriosPDF/Program.cs:184-202 | the id cell of record `k` sits at position `5 (k + 1) - m`, gets the background of the row it lands in, not of the record's own position, and starts a row exactly when `m` is a multiple of five |
| Report.RowsOfPaint | GeradorDeRelatoriosPDF/Program.cs:165-168 | in a table assembled by painting, cell `j` of row `r` is body `5r + j`, with the background of row `r` |
| Report.AllIconsRowCount | GeradorDeRelatoriosPDF/Program.cs:104-121 | with every icon present, the finished table has `1 + n` completed rows and nothing pending |
| Report.HeaderRowWhite | GeradorDeRelatoriosPDF/Program.cs:104-108 | the header is the first completed row, and it is white |
| Report.AllIconsRowsAlternate | GeradorDeRelatoriosPDF/Program.cs:111-121 | with every icon present, data row `k + 1` holds record `k`'s cells, and is gray exactly when `k + 1` is odd |
| Report.AllIconsPlacement | GeradorDeRelatoriosPDF/Program.cs:111-121 | with every icon present, record `k`'s cells are appended at positions `5 (k + 1)` to `5 (k + 1) + 4` |

## Left out

- Loading `pessoas.json` (`Program.cs:23-33`) is file I/O and JSON deserialisation. `Run` receives the loaded list instead; a missing file gives the empty list, and so no report.
- PDF setup is not modelled: the page size and margins, the file name built from the clock, the file stream, the writer, opening and closing, and starting the viewer through `cmd.exe` (`Program.cs:47-55`, `123-138`). These are I/O, the clock and process control.
- The title, the logo and the link (`Program.cs:58-94`) are left out. They are float geometry and library rendering calls, and they do not touch the table.
- The column widths `{0.6, 2, 1.5, 1, 1}` and the 100% table width (`Program.cs:98-101`) are left out. The library normalises them. There are five widths, one for each of the five columns.
- The cell settings that never vary are not represented: vertical alignment is always middle, and text cells always have a bottom padding of 5 (`Program.cs:173`, `177`, `196`).
- Fonts and colours are enumerations, not library objects. The gray is the 0.95 tint.
- `ToString("C2")` is a parameter. Culture-dependent currency formatting is outside the model.
- Report.AddImageCell: the image is not loaded or scaled. The cell records the path and the 20×20 box it is fitted to.
- Paths are the relative icon names. The base directory that `Path.Combine` puts in front (`Program.cs:119`) is left out. `assets` holds the paths that exist.
- The page-event class is not part of this model. Only the page total it receives (`Program.cs:54`) is modelled.
- Pagination.TotalPages: the float division `/ 29F` is taken as exact. Single-precision rounding could only matter for row counts far beyond the 100 the program selects.
- A record with a null profession, and a null list from the deserialiser, are not modelled. Both would throw in the program.
- How the library draws an incomplete last row is not modelled. With missing icons, that row remains pending in the model.
- `AddHeader` and `AddRecord` are not functions in the source. They group the source's inline calls (`Program.cs:104-108`, `113-120`) so that each group is proved on its own.
