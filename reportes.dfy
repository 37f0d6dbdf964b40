/**
 * The report delivery pipeline: locating the HTML-to-PDF engine, persisting
 * a snapshot for every generated report, rendering it or falling back to the
 * HTML preview, re-downloading a stored snapshot, and the owner's history.
 *
 * Everything the handlers obtain from outside (the request form, the current
 * user, the report producer, the file system, the platform, the PDF engine,
 * the database's commit outcome and clock) is a parameter.
 */
module Reportes {
  import opened Options
  import opened Strings

  // ---------------------------------------------------------------------
  // Environment
  // ---------------------------------------------------------------------

  datatype Platform = Windows | OtherPlatform

  /** Where the engine is bound: an explicit executable path, or the engine's own lookup. */
  datatype EngineConfig = ExplicitPath(path: string) | SystemDefault

  /** The outcome of locating the engine; `Unavailable` is an exception escaping the locator. */
  datatype LocateResult = Bound(config: EngineConfig) | Unavailable(cause: string)

  datatype RenderResult = Rendered | RenderFailed(cause: string)

  /** Page geometry and encoding handed to the engine. */
  datatype PageOptions = PageOptions(pageSize: string, margin: Option<string>, encoding: string, localFileAccess: bool)

  /** The options used right after generation: A4, half-inch margins. */
  const GenerateOptions: PageOptions := PageOptions("A4", Some("0.5in"), "UTF-8", true)

  /** The options used when re-downloading: A4 without explicit margins. */
  const DownloadOptions: PageOptions := PageOptions("A4", None, "UTF-8", true)

  /**
   * The host as the handlers see it: the platform name, `os.path.exists`,
   * whether the engine wrapper accepts an explicit path, the error (if any)
   * raised when it looks the engine up by itself, and the renderer.
   */
  datatype Host = Host(
    platform: Platform,
    pathExists: string -> bool,
    acceptsPath: string -> bool,
    defaultError: Option<string>,
    render: (string, PageOptions, EngineConfig) -> RenderResult)

  // ---------------------------------------------------------------------
  // Engine locator
  // ---------------------------------------------------------------------

  /** True when `s` names a file through a directory (it contains a separator). */
  predicate HasSeparator(s: string) {
    exists k :: 0 <= k < |s| && (s[k] == '/' || s[k] == '\\')
  }

  /** The install locations probed, in order, for a platform. */
  function CandidatePaths(p: Platform): (paths: seq<string>)
    ensures |paths| == 3
    ensures HasSeparator(paths[0]) && HasSeparator(paths[1]) && !HasSeparator(paths[2])
    ensures p == Windows ==> paths[2] == "wkhtmltopdf.exe"
    ensures p != Windows ==> paths[2] == "wkhtmltopdf"
  {
    if p == Windows then
      var first := "C:\\" + "Program Files\\wkhtmltopdf\\bin\\wkhtmltopdf.exe";
      var second := "C:\\" + "Program Files (x86)\\wkhtmltopdf\\bin\\wkhtmltopdf.exe";
      assert first[2] == '\\' && second[2] == '\\';
      [first, second, "wkhtmltopdf.exe"]
    else
      var first := "/usr/bin/wkhtmltopdf";
      var second := "/usr/local/bin/wkhtmltopdf";
      assert first[0] == '/' && second[0] == '/';
      [first, second, "wkhtmltopdf"]
  }

  /** The index of the first path for which `present` holds. */
  function FirstExisting(paths: seq<string>, present: string -> bool): (r: Option<nat>)
    ensures r.Some? ==> r.value < |paths| && present(paths[r.value])
    ensures r.Some? ==> forall j :: 0 <= j < r.value ==> !present(paths[j])
    ensures r.None? ==> forall j :: 0 <= j < |paths| ==> !present(paths[j])
  {
    if |paths| == 0 then None
    else if present(paths[0]) then Some(0)
    else match FirstExisting(paths[1..], present)
      case None => None
      case Some(i) => Some(i + 1)
  }

  /** The configuration without an explicit path; its failure escapes the locator. */
  function DefaultEngine(h: Host): LocateResult {
    if h.defaultError.None? then Bound(SystemDefault) else Unavailable(h.defaultError.value)
  }

  /** What locating the engine yields on host `h`. */
  function Located(h: Host): (r: LocateResult)
    ensures r.Bound? && r.config.ExplicitPath? ==>
      exists i :: 0 <= i < 3 && CandidatePaths(h.platform)[i] == r.config.path
        && h.pathExists(r.config.path)
        && forall j :: 0 <= j < i ==> !h.pathExists(CandidatePaths(h.platform)[j])
    ensures r.Bound? && r.config.ExplicitPath? ==> h.acceptsPath(r.config.path)
    ensures forall i ::
      (0 <= i < 3 && h.pathExists(CandidatePaths(h.platform)[i])
        && forall j :: 0 <= j < i ==> !h.pathExists(CandidatePaths(h.platform)[j]))
      ==> r == if h.acceptsPath(CandidatePaths(h.platform)[i]) then Bound(ExplicitPath(CandidatePaths(h.platform)[i]))
               else DefaultEngine(h)
    ensures (forall j :: 0 <= j < 3 ==> !h.pathExists(CandidatePaths(h.platform)[j])) ==> r == DefaultEngine(h)
  {
    var paths := CandidatePaths(h.platform);
    match FirstExisting(paths, h.pathExists)
    case Some(i) => if h.acceptsPath(paths[i]) then Bound(ExplicitPath(paths[i])) else DefaultEngine(h)
    case None => DefaultEngine(h)
  }

  /** `get_pdf_config`: probe the candidates in order and bind to the first that exists. */
  method LocateEngine(h: Host) returns (r: LocateResult)
    ensures r == Located(h)
  {
    var paths := CandidatePaths(h.platform);
    for i := 0 to |paths|
      invariant forall j :: 0 <= j < i ==> !h.pathExists(paths[j])
    {
      if h.pathExists(paths[i]) {
        if h.acceptsPath(paths[i]) {
          return Bound(ExplicitPath(paths[i]));
        }
        // the wrapper rejected the path: the locator's except branch binds the default
        return DefaultEngine(h);
      }
    }
    return DefaultEngine(h);
  }

  // ---------------------------------------------------------------------
  // Requests, producer results, snapshots, responses
  // ---------------------------------------------------------------------

  datatype User = User(id: int, rol: string)

  const AdminRole: string := "administrador"

  /** The fields of the individual-report form; a missing field is None. */
  datatype IndividualForm = IndividualForm(estudianteId: Option<string>, semestre: Option<string>, formato: Option<string>)

  /** The fields of the general-report form. */
  datatype GeneralForm = GeneralForm(semestre: Option<string>, categoriaFiltro: Option<string>, formato: Option<string>)

  /** What a producer call yields: a value, or the exception it raised. */
  datatype Outcome<T> = Produced(value: T) | Failed(cause: string)

  /** The individual producer's result: the HTML and the student's names. */
  datatype StudentReport = StudentReport(html: string, nombres: string, apellidos: string)

  /** One row of the report table. */
  datatype Report = Report(
    id: nat,
    tipo: string,
    titulo: string,
    descripcion: string,
    parametros: map<string, Option<string>>,
    contenido: string,
    usuarioId: int,
    fecha: int)

  /** A row before the database assigns its id and timestamp. */
  datatype Draft = Draft(
    tipo: string,
    titulo: string,
    descripcion: string,
    parametros: map<string, Option<string>>,
    contenido: string,
    usuarioId: int)

  function Stamp(d: Draft, id: nat, fecha: int): Report {
    Report(id, d.tipo, d.titulo, d.descripcion, d.parametros, d.contenido, d.usuarioId, fecha)
  }

  datatype Endpoint = IndividualPage | GeneralPage | HistoryPage

  datatype Response =
    | PdfFile(filename: string, source: string, options: PageOptions, engine: EngineConfig)
    | HtmlPreview(content: string, title: string, warning: Option<string>)
    | Redirect(target: Endpoint, message: string)
    | NotFound

  /** How a possibly missing form value is written by an f-string. */
  function FormText(v: Option<string>): string {
    if v.Some? then v.value else "None"
  }

  /** `request.form.get('formato', 'html')`. */
  function FormatOf(v: Option<string>): string {
    if v.Some? then v.value else "html"
  }

  function ReportError(cause: string): string { "Error generando reporte: " + cause }
  function PdfError(cause: string): string { "Error generando PDF: " + cause }
  function RegenerateError(cause: string): string { "Error regenerando PDF: " + cause }
  const DeniedMessage: string := "No tiene permisos para acceder a este reporte."

  function IndividualDraft(user: User, form: IndividualForm, res: StudentReport): Draft {
    Draft(
      "INDIVIDUAL_RIESGO",
      "Reporte de Riesgo - " + res.nombres + " " + res.apellidos,
      "Reporte individual de riesgo académico para el semestre " + FormText(form.semestre),
      map["estudiante_id" := form.estudianteId, "semestre" := form.semestre],
      res.html,
      user.id)
  }

  function GeneralDraft(user: User, form: GeneralForm, html: string): Draft {
    Draft(
      "GENERAL_RIESGO",
      "Reporte General de Riesgo - " + FormText(form.semestre),
      "Reporte general de riesgo académico. Filtro: " + FormText(form.categoriaFiltro),
      map["semestre" := form.semestre, "categoria_filtro" := form.categoriaFiltro],
      html,
      user.id)
  }

  function IndividualPdfName(estudianteId: Option<string>): string {
    "reporte_individual_" + FormText(estudianteId) + ".pdf"
  }

  function GeneralPdfName(semestre: Option<string>): string {
    "reporte_general_" + FormText(semestre) + ".pdf"
  }

  /** The attachment name of a re-downloaded snapshot. */
  function DownloadName(tipo: string, id: nat): string {
    "reporte_" + tipo + "_" + Decimal(id) + ".pdf"
  }

  /** Reads a download name back into the snapshot type and id it was made from. */
  function ParseDownloadName(name: string): Option<(string, nat)> {
    if |name| < 12 || name[..8] != "reporte_" || name[|name| - 4..] != ".pdf" then None
    else
      var core := name[8..|name| - 4];
      var u := LastIndexOf(core, '_');
      if u < 0 then None
      else match ParseDecimal(core[u + 1..])
        case None => None
        case Some(n) => Some((core[..u], n))
  }

  /** The download name determines the snapshot's type and id. */
  lemma DownloadNameRoundTrip(tipo: string, id: nat)
    ensures ParseDownloadName(DownloadName(tipo, id)) == Some((tipo, id))
  {
    var name := DownloadName(tipo, id);
    var digits := Decimal(id);
    assert name[..8] == "reporte_";
    assert name[|name| - 4..] == ".pdf";
    var core := name[8..|name| - 4];
    assert core == tipo + "_" + digits;
    var u := LastIndexOf(core, '_');
    assert core[|tipo|] == '_';
    assert u == |tipo|;
    assert core[u + 1..] == digits;
    assert core[..u] == tipo;
    DecimalRoundTrip(id);
  }

  /** Two snapshots get the same download name only if they have the same type and id. */
  lemma DownloadNameInjective(a: Report, b: Report)
    requires DownloadName(a.tipo, a.id) == DownloadName(b.tipo, b.id)
    ensures a.tipo == b.tipo && a.id == b.id
  {
    DownloadNameRoundTrip(a.tipo, a.id);
    DownloadNameRoundTrip(b.tipo, b.id);
  }

  /** The owner, or any administrator, may download a snapshot. */
  predicate MayDownload(user: User, r: Report) {
    r.usuarioId == user.id || user.rol == AdminRole
  }

  // ---------------------------------------------------------------------
  // Rendering after generation
  // ---------------------------------------------------------------------

  /**
   * The reply once the snapshot is committed: the PDF when one was asked for
   * and the engine produced it, the HTML preview otherwise.
   */
  function Delivered(html: string, title: string, formato: string, filename: string, h: Host): (r: Response)
    ensures !r.Redirect? && !r.NotFound?
    ensures r.PdfFile? <==>
      formato == "pdf" && Located(h).Bound? && h.render(html, GenerateOptions, Located(h).config).Rendered?
    ensures r.PdfFile? ==> r == PdfFile(filename, html, GenerateOptions, Located(h).config)
    ensures r.HtmlPreview? ==> r.content == html && r.title == title && (r.warning.Some? <==> formato == "pdf")
  {
    if formato != "pdf" then HtmlPreview(html, title, None)
    else match Located(h)
      case Unavailable(cause) => HtmlPreview(html, title, Some(PdfError(cause)))
      case Bound(config) =>
        match h.render(html, GenerateOptions, config)
        case Rendered => PdfFile(filename, html, GenerateOptions, config)
        case RenderFailed(cause) => HtmlPreview(html, title, Some(PdfError(cause)))
  }

  /**
   * The shared tail of both generate handlers, step by step as the handler's
   * `if formato == 'pdf'` / `try` / `except` runs it; `Delivered` states the
   * same reply as a value, and the handlers' contracts are written with it.
   */
  method RenderOrPreview(html: string, title: string, formato: string, filename: string, h: Host)
    returns (resp: Response)
    ensures resp == Delivered(html, title, formato, filename, h)
  {
    if formato != "pdf" {
      return HtmlPreview(html, title, None);
    }
    var located := LocateEngine(h);
    if located.Unavailable? {
      return HtmlPreview(html, title, Some(PdfError(located.cause)));
    }
    var outcome := h.render(html, GenerateOptions, located.config);
    if outcome.RenderFailed? {
      return HtmlPreview(html, title, Some(PdfError(outcome.cause)));
    }
    resp := PdfFile(filename, html, GenerateOptions, located.config);
  }

  // ---------------------------------------------------------------------
  // Snapshot lookup and history
  // ---------------------------------------------------------------------

  /** `Reporte.query.get(id)` over the table. */
  function Lookup(rows: seq<Report>, id: nat): (r: Option<Report>)
    ensures r.Some? ==> r.value in rows && r.value.id == id
    ensures r.None? ==> forall k :: 0 <= k < |rows| ==> rows[k].id != id
  {
    if |rows| == 0 then None
    else if rows[0].id == id then Some(rows[0])
    else Lookup(rows[1..], id)
  }

  /** Appending a row with a larger id finds it, and leaves every earlier lookup as it was. */
  lemma {:induction false} LookupAppend(rows: seq<Report>, s: Report, id: nat)
    requires forall k :: 0 <= k < |rows| ==> rows[k].id < s.id
    ensures Lookup(rows + [s], id) == if id == s.id then Some(s) else Lookup(rows, id)
  {
    if |rows| == 0 {
      assert rows + [s] == [s];
    } else {
      assert (rows + [s])[1..] == rows[1..] + [s];
      LookupAppend(rows[1..], s, id);
    }
  }

  const PerPage: nat := 10

  function OwnedBy(rows: seq<Report>, owner: int): (r: seq<Report>)
    ensures forall k :: 0 <= k < |r| ==> r[k].usuarioId == owner
    ensures forall x :: x in r <==> x in rows && x.usuarioId == owner
  {
    if |rows| == 0 then []
    else (if rows[0].usuarioId == owner then [rows[0]] else []) + OwnedBy(rows[1..], owner)
  }

  ghost predicate NewestFirst(s: seq<Report>) {
    forall i, j :: 0 <= i < j < |s| ==> s[i].fecha >= s[j].fecha
  }

  lemma BelowAfterInsert(top: int, x: Report, s: seq<Report>, r: seq<Report>)
    requires forall y :: y in r <==> y in s || y == x
    requires x.fecha <= top && forall k :: 0 <= k < |s| ==> s[k].fecha <= top
    ensures forall k :: 0 <= k < |r| ==> r[k].fecha <= top
  {
    forall k | 0 <= k < |r| ensures r[k].fecha <= top {
      assert r[k] in r;
    }
  }

  function InsertByDate(x: Report, s: seq<Report>): (r: seq<Report>)
    requires NewestFirst(s)
    ensures multiset(r) == multiset(s) + multiset{x}
    ensures forall y :: y in r <==> y in s || y == x
    ensures NewestFirst(r)
  {
    if |s| == 0 then [x]
    else if x.fecha >= s[0].fecha then [x] + s
    else
      var rest := InsertByDate(x, s[1..]);
      BelowAfterInsert(s[0].fecha, x, s[1..], rest);
      assert s == [s[0]] + s[1..];
      [s[0]] + rest
  }

  /** `order_by(fecha_generacion.desc())`: a permutation, newest first. */
  function SortByDate(s: seq<Report>): (r: seq<Report>)
    ensures multiset(r) == multiset(s) && |r| == |s|
    ensures forall y :: y in r <==> y in s
    ensures NewestFirst(r)
  {
    if |s| == 0 then []
    else
      assert s == [s[0]] + s[1..];
      InsertByDate(s[0], SortByDate(s[1..]))
  }

  /** The position of the first row of a page; a page below 1 reads as page 1. */
  function PageStart(page: int): nat {
    if page < 1 then 0 else (page - 1) * PerPage
  }

  /** The number of rows on an in-range page of `n` rows: ten, or what is left. */
  function PageLen(n: nat, page: int): int {
    if n - PageStart(page) < PerPage then n - PageStart(page) else PerPage
  }

  /** `paginate(page, per_page=10, error_out=False)`. */
  function Paginate(s: seq<Report>, page: int): (r: seq<Report>)
    ensures forall x :: x in r ==> x in s
    ensures NewestFirst(s) ==> NewestFirst(r)
    ensures PageStart(page) >= |s| ==> r == []
    ensures PageStart(page) < |s| ==> |r| == PageLen(|s|, page) && r == s[PageStart(page)..PageStart(page) + |r|]
    ensures forall k :: 0 <= k < |r| ==> PageStart(page) + k < |s| && r[k] == s[PageStart(page) + k]
  {
    var start := PageStart(page);
    if start >= |s| then []
    else s[start..if start + PerPage < |s| then start + PerPage else |s|]
  }

  /** Row `k` is on page `k / 10 + 1`. */
  lemma PaginateCovers(s: seq<Report>, k: nat)
    requires k < |s|
    ensures s[k] in Paginate(s, k / PerPage + 1)
  {
    var q := k / PerPage;
    assert q * PerPage <= k < q * PerPage + PerPage;
    assert PageStart(q + 1) == q * PerPage;
    var items := Paginate(s, q + 1);
    assert items[k - q * PerPage] == s[k];
  }

  // ---------------------------------------------------------------------
  // The store and its handlers
  // ---------------------------------------------------------------------

  /** The report table, with the id the database hands out next. */
  class ReportStore {
    var rows: seq<Report>
    var nextId: nat

    /** Ids are positive, increase along the table and stay below `nextId`. */
    ghost predicate Valid()
      reads this
    {
      && (forall i, j :: 0 <= i < j < |rows| ==> rows[i].id < rows[j].id)
      && (forall i :: 0 <= i < |rows| ==> 0 < rows[i].id < nextId)
      && nextId > 0
    }

    constructor ()
      ensures Valid() && rows == [] && nextId == 1
    {
      rows := [];
      nextId := 1;
    }

    /** `db.session.add` then `commit`; a failed commit is rolled back. */
    method Commit(draft: Draft, now: int, commitError: Option<string>) returns (saved: bool)
      requires Valid()
      modifies this
      ensures Valid()
      ensures saved == commitError.None?
      ensures saved ==> rows == old(rows) + [Stamp(draft, old(nextId), now)] && nextId == old(nextId) + 1
      ensures !saved ==> rows == old(rows) && nextId == old(nextId)
    {
      if commitError.Some? {
        return false;
      }
      rows := rows + [Stamp(draft, nextId, now)];
      nextId := nextId + 1;
      saved := true;
    }

    /**
     * `generar_individual`: produce, persist one snapshot whatever the
     * format, then render the PDF if asked, falling back to the preview.
     */
    method GenerateIndividual(
      user: User, form: IndividualForm,
      produce: (Option<string>, Option<string>) -> Outcome<StudentReport>,
      commitError: Option<string>, now: int, h: Host)
      returns (resp: Response)
      requires Valid()
      modifies this
      ensures Valid()
      ensures old(rows) <= rows
      ensures resp.Redirect? <==> rows == old(rows)
      ensures match produce(form.estudianteId, form.semestre)
        case Failed(cause) =>
          rows == old(rows) && nextId == old(nextId) && resp == Redirect(IndividualPage, ReportError(cause))
        case Produced(res) =>
          if commitError.Some? then
            rows == old(rows) && nextId == old(nextId) && resp == Redirect(IndividualPage, ReportError(commitError.value))
          else
            var snapshot := Stamp(IndividualDraft(user, form, res), old(nextId), now);
            && rows == old(rows) + [snapshot]
            && snapshot.contenido == res.html && snapshot.usuarioId == user.id
            && snapshot.tipo == "INDIVIDUAL_RIESGO"
            && resp == Delivered(res.html, snapshot.titulo, FormatOf(form.formato), IndividualPdfName(form.estudianteId), h)
    {
      var outcome := produce(form.estudianteId, form.semestre);
      if outcome.Failed? {
        return Redirect(IndividualPage, ReportError(outcome.cause));
      }
      var res := outcome.value;
      var draft := IndividualDraft(user, form, res);
      var saved := Commit(draft, now, commitError);
      if !saved {
        return Redirect(IndividualPage, ReportError(commitError.value));
      }
      resp := RenderOrPreview(res.html, draft.titulo, FormatOf(form.formato), IndividualPdfName(form.estudianteId), h);
    }

    /** `generar_general`: the same flow for the term-wide report. */
    method GenerateGeneral(
      user: User, form: GeneralForm,
      produce: (Option<string>, Option<string>) -> Outcome<string>,
      commitError: Option<string>, now: int, h: Host)
      returns (resp: Response)
      requires Valid()
      modifies this
      ensures Valid()
      ensures old(rows) <= rows
      ensures resp.Redirect? <==> rows == old(rows)
      ensures match produce(form.semestre, form.categoriaFiltro)
        case Failed(cause) =>
          rows == old(rows) && nextId == old(nextId) && resp == Redirect(GeneralPage, ReportError(cause))
        case Produced(html) =>
          if commitError.Some? then
            rows == old(rows) && nextId == old(nextId) && resp == Redirect(GeneralPage, ReportError(commitError.value))
          else
            var snapshot := Stamp(GeneralDraft(user, form, html), old(nextId), now);
            && rows == old(rows) + [snapshot]
            && snapshot.contenido == html && snapshot.usuarioId == user.id
            && snapshot.tipo == "GENERAL_RIESGO"
            && resp == Delivered(html, snapshot.titulo, FormatOf(form.formato), GeneralPdfName(form.semestre), h)
    {
      var outcome := produce(form.semestre, form.categoriaFiltro);
      if outcome.Failed? {
        return Redirect(GeneralPage, ReportError(outcome.cause));
      }
      var html := outcome.value;
      var draft := GeneralDraft(user, form, html);
      var saved := Commit(draft, now, commitError);
      if !saved {
        return Redirect(GeneralPage, ReportError(commitError.value));
      }
      resp := RenderOrPreview(html, draft.titulo, FormatOf(form.formato), GeneralPdfName(form.semestre), h);
    }

    /**
     * `descargar`: look the snapshot up, check access, and render its stored
     * content again; no producer is involved.
     */
    method Download(user: User, id: nat, h: Host) returns (resp: Response)
      ensures Lookup(rows, id).None? ==> resp == NotFound
      ensures Lookup(rows, id).Some? && !MayDownload(user, Lookup(rows, id).value) ==>
        resp == Redirect(HistoryPage, DeniedMessage)
      ensures Lookup(rows, id).Some? && MayDownload(user, Lookup(rows, id).value) ==>
        var r := Lookup(rows, id).value;
        match Located(h)
        case Unavailable(cause) => resp == Redirect(HistoryPage, RegenerateError(cause))
        case Bound(config) =>
          match h.render(r.contenido, DownloadOptions, config)
          case Rendered => resp == PdfFile(DownloadName(r.tipo, r.id), r.contenido, DownloadOptions, config)
          case RenderFailed(cause) => resp == Redirect(HistoryPage, RegenerateError(cause))
      ensures resp.PdfFile? ==>
        exists k :: 0 <= k < |rows| && rows[k].id == id && MayDownload(user, rows[k])
          && resp.source == rows[k].contenido && resp.filename == DownloadName(rows[k].tipo, id)
      ensures !resp.PdfFile? ==> resp.Redirect? || resp.NotFound?
    {
      var found := Lookup(rows, id);
      if found.None? {
        return NotFound;
      }
      var r := found.value;
      if !MayDownload(user, r) {
        return Redirect(HistoryPage, DeniedMessage);
      }
      var located := LocateEngine(h);
      if located.Unavailable? {
        return Redirect(HistoryPage, RegenerateError(located.cause));
      }
      var outcome := h.render(r.contenido, DownloadOptions, located.config);
      if outcome.RenderFailed? {
        return Redirect(HistoryPage, RegenerateError(outcome.cause));
      }
      resp := PdfFile(DownloadName(r.tipo, r.id), r.contenido, DownloadOptions, located.config);
    }

    /** `historial`: the user's own snapshots, newest first, ten per page. */
    function History(user: User, page: int): (items: seq<Report>)
      reads this
      ensures |items| <= PerPage
      ensures forall k :: 0 <= k < |items| ==> items[k] in rows && items[k].usuarioId == user.id
      ensures NewestFirst(items)
      ensures PageStart(page) >= |OwnedBy(rows, user.id)| ==> items == []
      ensures PageStart(page) < |OwnedBy(rows, user.id)| ==> |items| == PageLen(|OwnedBy(rows, user.id)|, page)
      ensures forall k :: 0 <= k < |items| ==> items[k] == SortByDate(OwnedBy(rows, user.id))[PageStart(page) + k]
    {
      PageOf(rows, user.id, page)
    }
  }

  /** Page `page` of the rows of `owner`, newest first. */
  function PageOf(rows: seq<Report>, owner: int, page: int): (items: seq<Report>)
    ensures |items| <= PerPage
    ensures forall k :: 0 <= k < |items| ==> items[k] in rows && items[k].usuarioId == owner
    ensures NewestFirst(items)
    ensures PageStart(page) >= |OwnedBy(rows, owner)| ==> items == []
    ensures PageStart(page) < |OwnedBy(rows, owner)| ==> |items| == PageLen(|OwnedBy(rows, owner)|, page)
    ensures forall k :: 0 <= k < |items| ==> items[k] == SortByDate(OwnedBy(rows, owner))[PageStart(page) + k]
  {
    OwnPage(rows, owner, page);
    Paginate(SortByDate(OwnedBy(rows, owner)), page)
  }

  /** Every row of a page comes from the table and belongs to the owner. */
  lemma OwnPage(rows: seq<Report>, owner: int, page: int)
    ensures var items := Paginate(SortByDate(OwnedBy(rows, owner)), page);
      forall k :: 0 <= k < |items| ==> items[k] in rows && items[k].usuarioId == owner
  {
    var owned := OwnedBy(rows, owner);
    var items := Paginate(SortByDate(owned), page);
    forall k | 0 <= k < |items| ensures items[k] in rows && items[k].usuarioId == owner {
      assert items[k] in items;
    }
  }

  /** Every snapshot of the user appears on some page of the history. */
  lemma HistoryCovers(store: ReportStore, user: User, r: Report)
    requires r in store.rows && r.usuarioId == user.id
    ensures exists page :: 1 <= page && r in store.History(user, page)
  {
    var ordered := SortByDate(OwnedBy(store.rows, user.id));
    assert r in ordered;
    var k :| 0 <= k < |ordered| && ordered[k] == r;
    PaginateCovers(ordered, k);
    assert store.History(user, k / PerPage + 1) == Paginate(ordered, k / PerPage + 1);
  }
}
