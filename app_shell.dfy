/** The application shell of App.tsx: the themes registered at start-up,
    the initial theme choice, and PDF export with its `isGenerating` flag
    and download name. The PDF renderer itself (`pdf(doc).toBlob()`) is
    outside the model: whether it produced a file is a parameter. */
module AppShell {
  import opened Wrappers
  import opened CVTypes
  import opened JsString
  import opened JsonUtils
  import opened ThemeRegistry

  /** The theme object of themes/basic/index.ts, which is what the import
      `./themes/basic` resolves to: an HTML preview and a PDF document, no
      `Document`. */
  const BasicTheme := CVTheme("basic", "Basic", None, Some(BasicHtmlLayout), Some(BasicPdfLayout))

  /** The `basicTheme` of themes/basic/index.tsx, not registered. */
  const BasicSidebarTheme := CVTheme("basic", "Basic", Some(BasicSidebarLayout), None, None)

  const AcademicoTheme := CVTheme("academico", "Académico", Some(AcademicoLayout), None, None)
  const ProgramadorTheme := CVTheme("programador", "Programador", Some(ProgramadorLayout), None, None)
  const ModernoTheme := CVTheme("moderno", "Moderno", Some(ModernoLayout), None, None)

  /** The two `registerTheme` calls at module load: exactly `basic` and
      `academico`, in that order. */
  method Startup() returns (reg: Registry)
    ensures fresh(reg) && reg.Valid()
    ensures reg.ids == ["basic", "academico"]
    ensures reg.GetTheme("basic") == Some(BasicTheme)
    ensures reg.GetTheme("academico") == Some(AcademicoTheme)
    ensures forall id :: id != "basic" && id != "academico" ==> reg.GetTheme(id).None?
  {
    reg := new Registry();
    reg.RegisterTheme(BasicTheme);
    reg.RegisterTheme(AcademicoTheme);
  }

  /** The `useState` initialiser of `selectedTheme`: the document's
      `activeTheme` when it is non-empty and registered, else `basic`. */
  function InitialTheme(reg: Registry, activeTheme: string): (r: string)
    requires reg.Valid()
    reads reg
    ensures activeTheme != "" && reg.HasTheme(activeTheme) ==> r == activeTheme
    ensures !(activeTheme != "" && reg.HasTheme(activeTheme)) ==> r == "basic"
    ensures reg.HasTheme("basic") ==> reg.HasTheme(r)
  {
    if activeTheme != "" && reg.GetTheme(activeTheme).Some? then activeTheme else "basic"
  }

  /** The download name: white-space runs to one hyphen, then lower case,
      nothing removed. */
  function PdfFileName(name: string): (r: string)
    ensures |r| == |"cv-.pdf"| + |HyphenateWhitespace(name)| && r[..3] == "cv-" && r[|r| - 4..] == ".pdf"
    ensures forall c :: c in r[3..|r| - 4] ==> !IsWhitespace(c)
  {
    var h := HyphenateWhitespace(name);
    HyphenateChars(name);
    assert forall i :: 0 <= i < |h| ==> h[i] in h;
    var r := "cv-" + ToLower(h) + ".pdf";
    assert r[3..|r| - 4] == ToLower(h);
    r
  }

  /** The JSON stem is never longer than the PDF one: it comes from the same
      hyphenated, lower-cased name, with characters only taken away. */
  lemma JsonStemNoLongerThanPdf(name: string)
    ensures |JsonSlug(name)| + |"cv-.pdf"| <= |PdfFileName(name)|
    ensures |ExportFileName(name)| <= |PdfFileName(name)| + 1
  {
    HyphenateToLowerCommute(name);
  }

  /** When the hyphenated, lower-cased name holds only [a-z0-9-], the PDF
      and the JSON downloads share their stem. */
  lemma PdfAndJsonNamesAgree(name: string)
    requires forall c :: c in HyphenateWhitespace(ToLower(name)) ==> IsSlugChar(c)
    ensures PdfFileName(name) == "cv-" + JsonSlug(name) + ".pdf"
  {
    HyphenateToLowerCommute(name);
  }

  /** Otherwise they differ: the PDF name keeps an accented letter that the
      JSON name strips. */
  lemma PdfKeepsWhatJsonStrips()
    ensures PdfFileName("José") == "cv-" + "josé" + ".pdf"
    ensures ExportFileName("José") == "cv-" + "jos" + ".json"
  {
    var n, l := "José", "josé";
    assert HyphenateWhitespace(n) == n by { NoWhitespaceUnchanged(n); }
    assert HyphenateWhitespace(l) == l by { NoWhitespaceUnchanged(l); }
    assert ToLower(n) == l by { LowerJose(); }
    assert JsonSlug(n) == "jos" by { SlugJose(); }
  }

  lemma LowerJose()
    ensures ToLower("José") == "josé"
  {
    var r := ToLower("José");
    assert r[0] == 'j' && r[1] == 'o' && r[2] == 's' && r[3] == '\U{00E9}';
  }

  lemma SlugJose()
    ensures KeepSlugChars("josé") == "jos"
  {
    KeepSlugConcat("jos", "\U{00E9}");
    assert "jos" + "\U{00E9}" == "josé";
    assert KeepSlugChars("\U{00E9}") == "";
  }

  lemma NoWhitespaceUnchanged(a: string)
    requires forall c :: c in a ==> !IsWhitespace(c)
    ensures HyphenateWhitespace(a) == a
  {
    HyphenateWord(a, "");
    assert a + "" == a;
  }

  /** The App component: its data, the registry it reads and its two
      pieces of state. */
  class App {
    const registry: Registry
    const data: CVData
    var selectedTheme: string
    var isGenerating: bool

    constructor(reg: Registry, d: CVData)
      requires reg.Valid()
      ensures registry == reg && data == d
      ensures selectedTheme == InitialTheme(reg, d.activeTheme) && !isGenerating
    {
      registry := reg;
      data := d;
      selectedTheme := InitialTheme(reg, d.activeTheme);
      isGenerating := false;
    }

    /** `theme`: the selected theme, if registered. */
    function Theme(): Option<CVTheme>
      requires registry.Valid()
      reads this, registry
    {
      registry.GetTheme(selectedTheme)
    }

    /** `onThemeChange={setSelectedTheme}`. */
    method SelectTheme(id: string)
      modifies this
      ensures selectedTheme == id && isGenerating == old(isGenerating)
    {
      selectedTheme := id;
    }

    /** `handleExportPDF` up to its `await`: nothing at all happens without
        a resolved theme; otherwise the flag is raised. */
    method BeginExport() returns (started: bool)
      requires registry.Valid()
      modifies this
      ensures started <==> old(Theme()).Some?
      ensures isGenerating == (if started then true else old(isGenerating))
      ensures selectedTheme == old(selectedTheme)
    {
      if registry.GetTheme(selectedTheme).None? { return false; }
      isGenerating := true;
      return true;
    }

    /** The rest of `handleExportPDF`, after the renderer has answered: a
        rendered file is downloaded under `PdfFileName`, a failure is only
        logged, and either way the `finally` lowers the flag. */
    method FinishExport(rendered: bool) returns (download: Option<string>)
      modifies this
      ensures download == (if rendered then Some(PdfFileName(data.basicInfo.name)) else None)
      ensures !isGenerating && selectedTheme == old(selectedTheme)
    {
      download := None;
      if rendered {
        download := Some(PdfFileName(data.basicInfo.name));
      }
      isGenerating := false;
    }

    /** One whole export: a no-op (the flag untouched) without a theme,
        otherwise the flag ends lowered whatever the renderer did. */
    method HandleExportPDF(rendered: bool) returns (download: Option<string>)
      requires registry.Valid()
      modifies this
      ensures old(Theme()).None? ==> download.None? && isGenerating == old(isGenerating)
      ensures old(Theme()).Some? ==> !isGenerating
      ensures download.Some? <==> old(Theme()).Some? && rendered
      ensures download.Some? ==> download.value == PdfFileName(data.basicInfo.name)
      ensures selectedTheme == old(selectedTheme)
    {
      var started := BeginExport();
      if !started { return None; }
      download := FinishExport(rendered);
    }
  }

  /** At start-up the selected theme always resolves, so the first export
      is never a no-op. */
  lemma StartupThemeResolves(reg: Registry, activeTheme: string)
    requires reg.Valid() && reg.HasTheme("basic")
    ensures reg.GetTheme(InitialTheme(reg, activeTheme)).Some?
  {
    var r := InitialTheme(reg, activeTheme);
    assert reg.HasTheme(r);
  }

  /** With the start-up registry, a document naming an unregistered theme
      (every bundled one but `basic` and `academico`) opens on `basic`. */
  method UnregisteredThemeFallsBack() returns (r: string)
    ensures r == "basic"
  {
    var reg := Startup();
    r := InitialTheme(reg, "programador");
  }
}
