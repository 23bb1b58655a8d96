/** `src/themes/basic/html-preview.tsx`: the on-screen preview of the basic
    layout. Achievements are handed to the rich-text component as they are;
    project cards carry their links. */
module BasicHtml {
  import opened Wrappers
  import opened CVTypes
  import opened JsString
  import opened DateFormat
  import opened DateStyles
  import opened Sections
  import opened Lines
  import opened Document
  import PdfProjects
  import Moderno

  /** One job: role, dates, company, then each achievement's markup. */
  function ExperienceEntry(e: Experience): seq<string> {
    ExperienceLines(e, HtmlPreview, e.company, e.achievements)
  }

  /** One entry: degree, dates, institute, and the location on its own line
      when it is non-empty. */
  function EducationEntry(e: Education): seq<string> {
    DegreeLines(e, HtmlPreview) + InstituteLines(e)
  }

  /** One project: name, url, github, description and "Tech: " line, each
      when present. */
  function ProjectEntry(p: Project): seq<string> {
    CardLines(ProjectCard(p, true, "Tech: ", ", "))
  }

  /** A job prints its role, dates and company, then every achievement's
      markup as it stands: the preview renders it instead of cleaning it. */
  lemma ExperienceEntryShape(e: Experience)
    ensures |ExperienceEntry(e)| == 3 + |e.achievements|
    ensures ExperienceEntry(e)[0] == e.role && ExperienceEntry(e)[2] == e.company
    ensures ExperienceEntry(e)[3..] == e.achievements
  {
  }

  /** An education entry prints four lines with a location and three
      without: degree, dates, institute, then the location. */
  lemma EducationEntryShape(e: Education)
    ensures |EducationEntry(e)| == (if e.location != "" then 4 else 3)
    ensures EducationEntry(e)[0] == e.degree && EducationEntry(e)[2] == e.institute
    ensures e.location != "" ==> EducationEntry(e)[3] == e.location
  {
  }

  function SectionBlock(d: CVData, s: SectionName): (r: Block)
    ensures r.section == s && r.title == Some(Title(d.sectionConfig.titles, s))
  {
    var lines := match s
      case SummarySection => [d.summary.content]
      case ExperiencesSection => FlatMap(d.experiences, ExperienceEntry)
      case EducationSection => FlatMap(d.education, EducationEntry)
      case SkillsSection => FlatMap(d.skills, SkillPair)
      case ProjectsSection => FlatMap(d.projects, ProjectEntry);
    Block(s, Some(Title(d.sectionConfig.titles, s)), lines)
  }

  /** `BasicHTMLPreview`. */
  function BasicHTMLPreview(d: CVData): (r: Page)
    ensures r.header == Some(StandardHeader(d.basicInfo)) && r.sidebar == [] && r.lead == []
    ensures SectionsOf(r.main) == Render(d.sectionConfig.order, d.sectionConfig.visibility, ProjectGuard(d))
    ensures forall i :: 0 <= i < |r.main| ==> r.main[i] == SectionBlock(d, r.main[i].section)
  {
    var shown := Render(d.sectionConfig.order, d.sectionConfig.visibility, ProjectGuard(d));
    var block := s => SectionBlock(d, s);
    BlocksKeepSections(shown, block);
    Page(Some(StandardHeader(d.basicInfo)), [], [], Blocks(shown, block))
  }

  /** A section is printed exactly when its name is in the order, its flag
      is set, and it is not an empty project list; an empty skills list
      still gets its title. */
  lemma SectionShown(d: CVData, s: SectionName)
    ensures s in SectionsOf(BasicHTMLPreview(d).main)
      <==> (Key(s) in d.sectionConfig.order && Visible(d.sectionConfig.visibility, s)
        && (s == ProjectsSection ==> |d.projects| > 0))
  {
    RenderMembers(d.sectionConfig.order, d.sectionConfig.visibility, ProjectGuard(d), s);
  }

  /** The moderno document's guards only add to the preview's: every
      section the moderno document prints, the preview prints too. */
  lemma ModernoSectionsInPreview(d: CVData, s: SectionName)
    ensures s in SectionsOf(Moderno.ModernoDocument(d).main) ==> s in SectionsOf(BasicHTMLPreview(d).main)
  {
    StrongerGuardRendersLess(d.sectionConfig.order, d.sectionConfig.visibility, ListGuards(d), ProjectGuard(d), s);
  }

  /** The extra guard is the one on skills: with some skills the two print
      the same sections in the same order. */
  lemma SameSectionsAsModernoWithSkills(d: CVData)
    requires |d.skills| > 0
    ensures SectionsOf(Moderno.ModernoDocument(d).main) == SectionsOf(BasicHTMLPreview(d).main)
  {
    SameGuardsSameSections(d.sectionConfig.order, d.sectionConfig.visibility, ListGuards(d), ProjectGuard(d));
  }

  /** An empty skills list prints its title over nothing. */
  lemma EmptySkillsTitled(d: CVData)
    requires |d.skills| == 0
    ensures SectionBlock(d, SkillsSection).lines == []
    ensures SectionBlock(d, SkillsSection).title == Some(d.sectionConfig.titles.skills)
  {
  }

  /** The preview's project cards are the PDF document's, line for line. */
  lemma SameCardsAsPdf(p: Project)
    ensures ProjectEntry(p) == PdfProjects.ProjectEntry(p)
  {
  }

  /** A month past the table prints as written: the dates of a current job
      that started in "2020-13" read "13 2020 - Present". */
  lemma PreviewKeepsBadMonth(y: string, m: string)
    requires GoodYear(y) && BadMonth(m)
    ensures ExperienceEntry(Experience("", "", "", y + "-" + m, "", Some(true), []))[1]
      == m + " " + y + " - Present"
  {
    var e := Experience("", "", "", y + "-" + m, "", Some(true), []);
    assert ExperienceEntry(e)[1] == FormatDateRange(HtmlPreview, e.startDate, e.endDate, e.current);
    HtmlPreviewCurrentBadMonth(y, m, "");
  }
}
