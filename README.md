# Academic-risk report delivery and the directory-tree printer, in Dafny

This project models two pieces of a Flask application that produces academic-risk reports:

- **The report delivery pipeline** (`app/modules/reportes/routes.py`), in module `Reportes`
  (`reportes.dfy`). The report table is a class, `ReportStore`, whose field `rows` holds the
  `Reporte` rows (id, tipo_reporte, titulo, descripcion, parametros, contenido, usuario_id,
  fecha_generacion). `nextId` is the id the database hands out next. The class has:
  - the two generate handlers as methods (`GenerateIndividual`, `GenerateGeneral`). Each one
    calls the producer, commits one snapshot whatever format was asked for, then renders the
    PDF if `formato == 'pdf'`. When rendering fails it falls back to the HTML preview with a
    warning, and the snapshot stays.
  - the download handler (`Download`). It looks a snapshot up by id and admits only the owner
    or an `administrador`. It re-renders the stored `contenido` with its own page options and
    names the file `reporte_{tipo}_{id}.pdf`.
  - the history listing (`History`). It shows the user's own rows, newest first, ten per page.
    An out-of-range page is empty.

  The engine locator `get_pdf_config` is the method `LocateEngine`. It is a loop over the
  platform's candidate paths that binds to the first existing one, proved against the
  function `Located`.
- **The directory-tree printer** (`gen_structure.py`), in module `GenStructure`
  (`gen_structure.dfy`):
  - `debe_ignorar` is `ShouldIgnore`, with the POSIX `os.path.splitext` extension rule as
    `Extension`: leading dots do not start an extension.
  - `generar_arbol` is `Tree`/`Level`: a function from an `Entry` tree and a prefix to the
    printed lines. Its layout is described by `Rows`, a text-free view of the same listing
    (ancestor guides, last-at-level flag, name). It is proved equal, line by line, to what is
    printed.

Small shared pieces: `Options.Option` and, in `Strings`, `LastIndexOf` (Python's `rfind`) and
`Decimal` (Python's `str` on a non-negative int) with its inverse `ParseDecimal`.

Outside inputs are parameters:
- the request form, the current user and the producer's result;
- the database's commit outcome and timestamp;
- in a `Host` value: `platform.system()`, `os.path.exists`, whether `pdfkit.configuration`
  accepts a path, whether it fails with no path, and `pdfkit.from_string`.

A PDF response carries the HTML it was rendered from, the page options and the engine binding,
in place of bytes.

Where the code's behaviour departs from what the routes suggest at first reading, the model follows the code:
- **The locator can raise.** `get_pdf_config` calls `pdfkit.configuration()` again at
  routes.py:39, outside its `try`. So a failing default lookup raises out of the locator. It is
  not turned into a typed result there. The exception reaches the handler's own `try`, which
  treats it like a render failure. The model returns `Unavailable(cause)` and handles it the
  same way.
- **The bare candidate is looked up in the working directory.** `wkhtmltopdf` / `wkhtmltopdf.exe`
  goes through `os.path.exists`, which looks in the working directory. It does not search
  `PATH`. The model applies `pathExists` to the literal string.
- **No timeout.** The code has no renderer timeout and no off-thread rendering.
- **No snapshot reference in the preview.** An HTML-format generate returns only the preview
  (content and title).

## Model

| member | source | states |
|---|---|---|
| `Reportes.CandidatePaths` | app/modules/reportes/routes.py:18-29 | three candidates per platform: two install paths with a directory separator, then the bare executable name (`wkhtmltopdf.exe` on Windows, `wkhtmltopdf` elsewhere) |
| `Reportes.FirstExisting` | app/modules/reportes/routes.py:31-33 | the index found is the first path, in list order, that exists; no earlier path exists; none found means no path exists |
| `Reportes.Located` | app/modules/reportes/routes.py:15-39 | an explicit binding is to a candidate that exists, that the wrapper accepts, and with no earlier candidate existing; when the first existing candidate is accepted the binding is to it and when it is rejected the result is the default configuration; when no candidate exists the result is the default configuration, or `Unavailable` when that lookup fails |
| `Reportes.LocateEngine` | app/modules/reportes/routes.py:15-39 | the probing loop with early return yields exactly `Located`: first existing candidate, default when none exists or the wrapper rejects the path, `Unavailable` when the default lookup itself fails |
| `Reportes.Delivered` | app/modules/reportes/routes.py:91-119 | after the commit the reply is never a redirect; it is the PDF exactly when `pdf` was asked and the engine was located and rendered, with the given file name and the generate options; otherwise the HTML preview of the same content, with a warning exactly when `pdf` was asked |
| `Reportes.RenderOrPreview` | app/modules/reportes/routes.py:91-119 | the render-or-fallback step computes `Delivered` |
| `Reportes.ReportStore.Commit` | app/modules/reportes/routes.py:85-86 | a successful commit appends exactly one row with the next id and the given timestamp; a failed one leaves the table and the id counter unchanged |
| `Reportes.ReportStore.GenerateIndividual` | app/modules/reportes/routes.py:63-124 | a producer or commit failure leaves the table unchanged and redirects to the form with the error; otherwise exactly one `INDIVIDUAL_RIESGO` row is appended, with `contenido` equal to the producer's HTML and owner equal to the current user, before and regardless of the format; the reply is `Delivered` with name `reporte_individual_{estudiante_id}.pdf`; existing rows are never altered |
| `Reportes.ReportStore.GenerateGeneral` | app/modules/reportes/routes.py:137-192 | the same for `GENERAL_RIESGO`, with name `reporte_general_{semestre}.pdf` and redirect to the general form |
| `Reportes.ReportStore.Download` | app/modules/reportes/routes.py:216-245 | unknown id gives not-found; a user who is neither owner nor `administrador` is redirected without content; otherwise the stored `contenido` is rendered with the download options and named `reporte_{tipo}_{id}.pdf`, and a locate or render failure redirects to the history with no HTML fallback; a PDF reply always carries the content of the row with that id |
| `Reportes.Lookup` | app/modules/reportes/routes.py:219 | the row found has the requested id and is in the table; nothing found means no row has that id |
| `Reportes.LookupAppend` | app/modules/reportes/routes.py:219-227 | after a row with a larger id is appended, that id finds the new row and every other id finds what it found before, so a download keeps rendering the same stored content |
| `Reportes.DownloadNameRoundTrip` | app/modules/reportes/routes.py:238 | the download file name reads back to the snapshot's type and id |
| `Reportes.DownloadNameInjective` | app/modules/reportes/routes.py:238 | two snapshots share a download name only when they share type and id |
| `Strings.DecimalRoundTrip` | app/modules/reportes/routes.py:238 | the decimal text of the id reads back as the id |
| `Reportes.OwnedBy` | app/modules/reportes/routes.py:205 | keeps exactly the rows of the given owner |
| `Reportes.SortByDate` | app/modules/reportes/routes.py:205-206 | a permutation of its input, ordered by `fecha` descending |
| `Reportes.Paginate` | app/modules/reportes/routes.py:202-207 | a page below 1 reads as page 1; a page starting past the end is empty; otherwise it is the slice of at most ten rows starting at `(page-1)*10`, and it keeps the order |
| `Reportes.ReportStore.History` | app/modules/reportes/routes.py:199-209 | at most ten rows, all in the table and all owned by the current user, newest first; empty when the page starts past the user's rows; otherwise exactly `min(10, rows left)` rows, and row `k` of the page is row `(page-1)*10 + k` of the user's rows ordered newest first |
| `Reportes.PageOf` | app/modules/reportes/routes.py:202-207 | the same page over a plain list of rows and an owner id: the user's rows, newest first, the in-range page holding exactly the ten (or fewer, at the end) rows starting at `(page-1)*10` |
| `Reportes.PaginateCovers` | app/modules/reportes/routes.py:207 | row `k` of the ordered list is on page `k/10 + 1` |
| `Reportes.HistoryCovers` | app/modules/reportes/routes.py:202-207 | every row of the user is listed on some page of the history |
| `Strings.LastIndexOf` | gen_structure.py:32 | the index returned holds the character and no later index does; -1 when absent |
| `GenStructure.SplitIsLastDot` | gen_structure.py:32 | a split point is the last dot, follows the last `/`, and has a non-dot character between them |
| `GenStructure.Extension` | gen_structure.py:32 | a non-empty extension is the suffix starting at the unique split point of `splitext`; an empty one means no split point exists |
| `GenStructure.ShouldIgnore` | gen_structure.py:23-36 | true for every listed name; for any other name, true exactly when its `splitext` extension is a listed extension |
| `GenStructure.LeadingDotIsNotExtension` | gen_structure.py:31-35 | `.log` has no extension and is not ignored; `a.tar.log` has `.log` and is ignored; `..log` has none; `a.` has `.` |
| `GenStructure.SortByName` | gen_structure.py:43-46 | a permutation of its input, sorted by Python string order |
| `GenStructure.Visible` | gen_structure.py:43-46 | keeps exactly the children whose names are not ignored |
| `GenStructure.Listing` | gen_structure.py:43-46 | the entries of one level are exactly the non-ignored children, sorted by name |
| `GenStructure.Tree` | gen_structure.py:39-59 | every printed line starts with the prefix the call was given |
| `GenStructure.Level` | gen_structure.py:50-59 | every line printed by the remaining loop iterations starts with the prefix |
| `GenStructure.Nest` | gen_structure.py:57-59 | the rows of a subdirectory gain one ancestor guide, the entry's own last-flag, and keep their names and flags |
| `GenStructure.Indent` | gen_structure.py:58 | the guides of a row are four characters per ancestor level |
| `GenStructure.TreeLayout` | gen_structure.py:50-59 | line `k` printed is the prefix, then per ancestor `"    "` after a last entry and `"│   "` otherwise, then `"└── "` for the last entry of its level and `"├── "` otherwise, then the name |
| `GenStructure.LevelLayout` | gen_structure.py:50-59 | the same, for the loop iterations from `i` on |
| `GenStructure.LineDepth` | gen_structure.py:55-59 | every line at depth `n` is `prefix + guides + connector + name` with exactly `4*n` guide characters |
| `GenStructure.FirstLevel` | gen_structure.py:43-55 | the first-level lines are the sorted non-ignored children, and only the final one is marked last |
| `GenStructure.RowsSkipIgnored` | gen_structure.py:43-46 | no printed entry at any depth has an ignored name |
| `GenStructure.VisibleReplaceIgnored` | gen_structure.py:43-46 | replacing an ignored child by any entry of the same name leaves the filtered children unchanged |
| `GenStructure.IgnoredChildNotDescended` | gen_structure.py:43-59 | an ignored directory is never descended into: whatever an ignored child holds, replacing it by any entry of the same name prints exactly the same lines |
| `GenStructure.RowsCount` | gen_structure.py:43-59 | the number of rows equals the non-ignored entries plus the rows of their non-ignored subdirectories, counted over the unsorted children |
| `GenStructure.LineCount` | gen_structure.py:43-59 | the number of printed lines is that same count |
| `GenStructure.EmptyWhenAllIgnored` | gen_structure.py:43-50 | a directory prints no line exactly when every child is ignored (in particular when it is empty) |

## Left out

- Flask plumbing is not modelled: `request.form`/`request.args` parsing, `login_required`, `flash`, `render_template`, `redirect`/`url_for`, `send_file`. Replies are the tagged `Response` values; flashed messages ride in `HtmlPreview.warning` and `Redirect.message`.
- The plain page routes `index`, `individual` and `general` (routes.py:46-60, 131-134) only render templates. The `Estudiante` query for the form is not modelled.
- PDF bytes, `pdfkit` and wkhtmltopdf are not modelled. Rendering is an abstract function of (HTML, options, engine binding) that succeeds or fails. Both option sets appear only as constants.
- The report producer (`ReportGenerator`) is not part of this model. It is an input function from the form fields to HTML (plus the student's names) or a failure.
- SQLAlchemy is not modelled. Ids come from a counter, the timestamp is an input, and `get_or_404` is a lookup over the rows.
- The order of rows with equal `fecha_generacion` is left to the database. `SortByDate` promises only a permutation ordered newest first.
- Paging assumes Flask-SQLAlchemy 3 behaviour: with `error_out=False` a page below 1 is page 1. A non-numeric `page` argument becomes 1 before it reaches the model.
- After a successful commit, an exception in the preview template would roll back (a no-op) and redirect. Template failures are not modelled.
- The warning `print` in `get_pdf_config` (routes.py:38) is not modelled, nor the reason a path was rejected.
- The tree printer's `main` (gen_structure.py:62-69) is not modelled: `os.getcwd` and the header line. Printing is the returned sequence of lines.
- `os.listdir`/`os.path.isdir`/`os.path.join` are not modelled. They become the given `Entry` tree. Symbolic links and unreadable directories are not modelled, and neither are the Windows (`ntpath`) rules of `splitext`: the POSIX rules are used.
- Concurrency, timeouts and off-thread rendering are not modelled. The code has none of them.
- `config.py` and `app.py` hold configuration and application bootstrap only, and are not part of this model.
