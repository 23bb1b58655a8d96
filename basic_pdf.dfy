/** `src/themes/basic/pdf-preview.tsx`: the basic layout's PDF document
    assembled from the shared PDF section components. */
module BasicPdf {
  import opened Wrappers
  import opened CVTypes
  import opened Sections
  import opened Document
  import PdfExperiences
  import PdfEducation
  import PdfProjects
  import BasicHtml

  /** The header only when the basicInfo flag is set. */
  function HeaderIf(d: CVData): (r: Option<Header>)
    ensures r.Some? <==> d.sectionConfig.visibility.basicInfo
    ensures r.Some? ==> r.value == StandardHeader(d.basicInfo)
  {
    if d.sectionConfig.visibility.basicInfo then Some(StandardHeader(d.basicInfo)) else None
  }

  /** The block each case of the switch returns; `PDFProjectsSection`
      returns nothing for an empty list, which the guard `ProjectGuard`
      accounts for. The summary has no title. */
  function SectionBlock(decode: string -> string, d: CVData, s: SectionName): (r: Block)
    ensures r.section == s
    ensures r.title == (if s == SummarySection then None else Some(Title(d.sectionConfig.titles, s)))
  {
    var titles := d.sectionConfig.titles;
    match s
    case SummarySection => Block(SummarySection, None, [d.summary.content])
    case ExperiencesSection => PdfExperiences.PDFExperiencesSection(decode, d.experiences, titles.experiences)
    case EducationSection => PdfEducation.PDFEducationSection(d.education, titles.education)
    case SkillsSection => Block(SkillsSection, Some(titles.skills), FlatMap(d.skills, SkillPair))
    case ProjectsSection =>
      Block(ProjectsSection, Some(titles.projects), FlatMap(d.projects, PdfProjects.ProjectEntry))
  }

  /** `BasicPDFDocument`. */
  function BasicPDFDocument(decode: string -> string, d: CVData): (r: Page)
    ensures r.header == HeaderIf(d) && r.sidebar == [] && r.lead == []
    ensures SectionsOf(r.main) == Render(d.sectionConfig.order, d.sectionConfig.visibility, ProjectGuard(d))
    ensures forall i :: 0 <= i < |r.main| ==> r.main[i] == SectionBlock(decode, d, r.main[i].section)
  {
    var shown := Render(d.sectionConfig.order, d.sectionConfig.visibility, ProjectGuard(d));
    var block := s => SectionBlock(decode, d, s);
    BlocksKeepSections(shown, block);
    Page(HeaderIf(d), [], [], Blocks(shown, block))
  }

  /** A section is printed exactly when its name is in the order, its flag
      is set, and it is not an empty project list. */
  lemma SectionShown(decode: string -> string, d: CVData, s: SectionName)
    ensures s in SectionsOf(BasicPDFDocument(decode, d).main)
      <==> (Key(s) in d.sectionConfig.order && Visible(d.sectionConfig.visibility, s)
        && (s == ProjectsSection ==> |d.projects| > 0))
  {
    RenderMembers(d.sectionConfig.order, d.sectionConfig.visibility, ProjectGuard(d), s);
  }

  /** The PDF document prints the sections the HTML preview shows, in the
      same order. */
  lemma SameSectionsAsPreview(decode: string -> string, d: CVData)
    ensures SectionsOf(BasicPDFDocument(decode, d).main) == SectionsOf(BasicHtml.BasicHTMLPreview(d).main)
  {
  }

  /** Where the projects section is printed, it is what
      `PDFProjectsSection` returns. */
  lemma ProjectsBlockIsComponent(decode: string -> string, d: CVData)
    requires |d.projects| > 0
    ensures PdfProjects.PDFProjectsSection(d.projects, d.sectionConfig.titles.projects)
      == Some(SectionBlock(decode, d, ProjectsSection))
  {
  }

  /** The "basicInfo" entry of the order prints nothing: the header is
      governed by its flag alone, wherever the name sits. */
  lemma BasicInfoKeyIgnored(decode: string -> string, d: CVData)
    ensures BasicPDFDocument(decode, d.(sectionConfig := d.sectionConfig.(order := d.sectionConfig.order + ["basicInfo"])))
      == BasicPDFDocument(decode, d)
  {
    var v := d.sectionConfig.visibility;
    RenderConcat(d.sectionConfig.order, ["basicInfo"], v, ProjectGuard(d));
    assert Render(["basicInfo"], v, ProjectGuard(d)) == [];
    var d1 := d.(sectionConfig := d.sectionConfig.(order := d.sectionConfig.order + ["basicInfo"]));
    assert ProjectGuard(d1) == ProjectGuard(d);
    assert d.sectionConfig.order + ["basicInfo"] == d1.sectionConfig.order;
  }
}
