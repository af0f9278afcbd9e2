# generate_xls: JSON rows to a legacy binary spreadsheet

`generate_xls` reads a decoded JSON document. It takes its `rows` value, where
a missing key means an empty list, and refuses an empty table. Otherwise it
writes every cell into a fresh sheet called "Sheet1" at the cell's zero-based
(row index, column index), saves the workbook and reports the number of rows.
Before a cell is written, null becomes the empty string and every other value
becomes its Python `str()` form.

The model has three modules:

- `Cells` (cells.dfy): the decoded scalar cell (`Str | Int | Bool | Null`).
  - `PyStr` is Python's `str()` of a cell. Integers print as canonical
    decimals and booleans as `True`/`False`. It is defined for `None` too, as
    `"None"`, which is why the converter needs its null branch.
  - `Normalise` is the converter's per-cell conversion.
  - The partner of integer printing is a parser. Its round-trip lemma shows
    that printing an integer loses nothing.
- `Workbooks` (workbook.dfy): the spreadsheet library, reduced to what the
  converter uses.
  - A `Workbook` holds a sequence of sheets and a `saved` snapshot taken by
    `Save`.
  - A `Sheet` holds `cells: map<(nat, nat), string>` and a ghost log of the
    positions written, in order.
  - `Sheet.Write` refuses to overwrite a cell. This follows the library's
    default for a sheet made by `add_sheet`, which raises on a second write to
    the same cell.
- `GenerateXls` (generate_xls.dfy): the document, the converter and its
  specification.
  - `Grid(rows)` is the sheet a table should produce.
  - `Coords(rows)` is the order in which the nested loops visit positions.
  - `Generate` is the converter itself. It runs the outer `for` loop, and
    `WriteRow` is the inner loop over one row. Both are proved against `Grid`
    and `Coords`, and lemmas state what those two functions mean.

The `rows` value is modelled as JSON null or an array of rows. Python's
`not rows` is true for null as well as for an empty list. So `{"rows": null}`
fails with the same "no rows" error as a missing key or `[]`, and the model
does the same.

## Model

| member | source | states |
|---|---|---|
| GenerateXls.Generate | backend/routes/generate_xls.py:30-55 | A missing key behaves like an empty `rows`. A missing, null or empty `rows` gives `NoRows` and creates no workbook, so nothing is written or saved. Otherwise the result is `Generated(len(rows))`. The only sheet is a fresh "Sheet1" whose cells are exactly `Grid(rows)`. Its write log is exactly `Coords(rows)`, so every write succeeded and none was refused as an overwrite. The saved snapshot is the populated sheet. |
| GenerateXls.RowsOf | backend/routes/generate_xls.py:30 | `data.get('rows', [])`: a present key yields its own value. The result is empty exactly when the key is absent or its value is null or empty. |
| GenerateXls.IsEmpty | backend/routes/generate_xls.py:32 | `not rows`: a table that passes the check is an array with at least one row. |
| GenerateXls.WriteRow | backend/routes/generate_xls.py:42-50 | When the sheet holds nothing of row `r` yet, writing the row adds exactly `RowGrid(r, row)` to the cells. It appends (r, 0) … (r, n-1) to the write log, in column order, and keeps the sheet's no-overwrite invariant. |
| GenerateXls.GridAt | backend/routes/generate_xls.py:41-50 | The sheet has a cell at (r, c) if and only if r < len(rows) and c < len(rows[r]). Ragged rows are not padded, and nothing outside the input's shape is written. The text at (r, c) is `Normalise(rows[r][c])`. |
| GenerateXls.RowGridAt | backend/routes/generate_xls.py:42-50 | One row fills exactly the positions (r, c) with c < len(row), and each holds the normalised text of its cell. |
| GenerateXls.CoordsAt | backend/routes/generate_xls.py:41-42 | The nested `enumerate` loops visit (r, c) if and only if r < len(rows) and c < len(rows[r]). |
| GenerateXls.CoordsRowMajor | backend/routes/generate_xls.py:41-42 | The visiting order is strictly increasing in row-major order: row by row, and left to right within a row. |
| GenerateXls.CoordsNoDuplicates | backend/routes/generate_xls.py:41-42 | No position is visited twice, so no cell is overwritten. |
| GenerateXls.CoordsLength | backend/routes/generate_xls.py:41-50 | The number of writes equals the total number of input cells. |
| GenerateXls.RowCoordsAt | backend/routes/generate_xls.py:42 | The inner loop over a row of length n visits (r, 0), …, (r, n-1) in that order. |
| Cells.Normalise | backend/routes/generate_xls.py:43-47 | A null cell becomes `""`. Any other cell becomes exactly its `str()` form `PyStr`. A string is written unchanged and untruncated. An integer becomes a canonical decimal that reads back as the same integer. A boolean becomes `True` or `False`, matching its value. |
| Cells.PyStr | backend/routes/generate_xls.py:47 | `str()` of a cell. A string is returned unchanged. An integer gives a canonical decimal that parses back to it. A boolean gives `True` or `False`, matching its value. `None` would give `"None"`. |
| Cells.IntToDecimal | backend/routes/generate_xls.py:47 | `str()` of an int is non-empty and starts with a minus sign exactly when the integer is negative. |
| Cells.IntToDecimalRoundTrip | backend/routes/generate_xls.py:47 | `str()` of an integer is a canonical decimal (optional minus sign, no leading zeros, no `-0`) that parses back to the same integer. |
| Cells.NatToDecimalRoundTrip | backend/routes/generate_xls.py:47 | The digits of a natural number are canonical, denote that number, and are `"0"` exactly for zero. |
| Cells.IntToDecimalInjective | backend/routes/generate_xls.py:47 | Two different integers never print as the same text. |
| Workbooks.Sheet.Write | backend/routes/generate_xls.py:50 | Writing stores the text at (row, col) and logs the position, if that cell was still empty. Otherwise it reports failure and changes nothing. Every cell present was written exactly once. |
| Workbooks.Sheet.constructor | backend/routes/generate_xls.py:38 | A new sheet has the given name, no cells and an empty write log. |
| Workbooks.Workbook.constructor | backend/routes/generate_xls.py:37 | A new workbook has no sheets and has not been saved. |
| Workbooks.Workbook.AddSheet | backend/routes/generate_xls.py:38 | Appends one fresh, empty sheet with the given name. Nothing else changes. |
| Workbooks.Workbook.Save | backend/routes/generate_xls.py:53 | After a save, the saved content is the current snapshot of all sheets. |

## Left out

- A decoded document that is not a JSON object (an array such as `[[1]]`, a string or a number) is not modelled: `Document` always stands for an object. On such input the source fails at line 30, because `data.get` does not exist, and the top-level handler exits with status 1 (lines 67-69).
- Opening and reading the input file and `json.load` (lines 27-28). The input is an already-decoded `Document`. JSON parse and read errors are outside the model.
- The library's binary file format. `Save` is modelled only as a snapshot of the sheets' cells, taken after population and only on the non-empty path. Write errors on save are not modelled.
- The library's row and column limits (65536 rows, 256 columns) and its 32767-character cell limit are not modelled. The comments at lines 4 and 49 describe library behaviour that this code does not enforce.
- Python's `str()` of floats (`1.0`, `1e+16`) is not modelled, and `Cell` has no float case. Integers are unbounded, as in Python. The decoder's limit on very long integer literals is part of the JSON decoder, which is not modelled.
- A `rows` value that is neither null nor an array (a number, string, object or boolean), a row that is not an array, and nested arrays or objects as cells are not modelled. Python would iterate, stringify or raise in ways that depend on the value's type.
- Command-line argument checking, the messages printed to standard output and standard error, `sys.exit` and the top-level `except Exception` (lines 33-34, 55, 57-69). The reported count is the `rowCount` of `Generated`, and the "no rows" exit is `NoRows`.
- The sheet's name "Sheet1" is not checked against the library's sheet-name rules.
