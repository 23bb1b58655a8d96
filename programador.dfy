/** `src/themes/programador/index.tsx`: the "programador" PDF document.
    A header with every truthy contact value, then the sections in the
    configured order; skills and projects are left out when their lists
    are empty. */
module Programador {
  import opened Wrappers
  import opened CVTypes
  import opened JsString
  import opened DateFormat
  import opened DateStyles
  import opened Sections
  import opened HtmlParser
  import opened Lines
  import opened Document

  /** One job: role, dates, "@ " and the company, then every achievement
      cleaned (an achievement that cleans to "" still gets its bullet). */
  function ExperienceEntry(e: Experience): seq<string> {
    ExperienceLines(e, Arrow, "@ " + e.company, CleanEach(e.achievements))
  }

  /** One education entry: degree, dates, and "@ " with the institute and
      the location after a comma when there is one. */
  function EducationEntry(e: Education): seq<string> {
    DegreeLines(e, Arrow) + ["@ " + EducationLine(e.institute, e.location)]
  }

  /** One project: name, description, "Stack: " and the technologies
      joined with " • "; no url or github line. */
  function ProjectEntry(p: Project): seq<string> {
    CardLines(ProjectCard(p, false, "Stack: ", " • "))
  }

  /** The section components, each under its configured title. */
  function SectionBlock(d: CVData, s: SectionName): (r: Block)
    ensures r.section == s && r.title == Some(Title(d.sectionConfig.titles, s))
  {
    var lines := match s
      case SummarySection => [d.summary.content]
      case ExperiencesSection => FlatMap(d.experiences, ExperienceEntry)
      case EducationSection => FlatMap(d.education, EducationEntry)
      case SkillsSection => FlatMap(d.skills, SkillPair)
      case ProjectsSection => FlatMap(d.projects, ProjectEntry);
    Block(s, Some(Title(d.sectionConfig.titles, s)), lines)
  }

  /** `ProgramadorDocument`. */
  function ProgramadorDocument(d: CVData): (r: Page)
    ensures r.header == Some(StandardHeader(d.basicInfo)) && r.sidebar == [] && r.lead == []
    ensures SectionsOf(r.main) == Render(d.sectionConfig.order, d.sectionConfig.visibility, ListGuards(d))
    ensures forall i :: 0 <= i < |r.main| ==> r.main[i] == SectionBlock(d, r.main[i].section)
  {
    var shown := Render(d.sectionConfig.order, d.sectionConfig.visibility, ListGuards(d));
    var block := s => SectionBlock(d, s);
    BlocksKeepSections(shown, block);
    Page(Some(StandardHeader(d.basicInfo)), [], [], Blocks(shown, block))
  }

  /** A section is printed exactly when its name is in the order, its flag
      is set, and it is not an empty skills or projects list. */
  lemma SectionShown(d: CVData, s: SectionName)
    ensures s in SectionsOf(ProgramadorDocument(d).main)
      <==> (Key(s) in d.sectionConfig.order && Visible(d.sectionConfig.visibility, s)
        && (s == SkillsSection ==> |d.skills| > 0) && (s == ProjectsSection ==> |d.projects| > 0))
  {
    RenderMembers(d.sectionConfig.order, d.sectionConfig.visibility, ListGuards(d), s);
  }

  /** An order without repeats prints each section at most once. */
  lemma SectionsOnce(d: CVData)
    requires DistinctKeys(d.sectionConfig.order)
    ensures DistinctSections(SectionsOf(ProgramadorDocument(d).main))
  {
    RenderDistinct(d.sectionConfig.order, d.sectionConfig.visibility, ListGuards(d));
  }

  /** A job prints three lines and one line per achievement; the third is
      the company after "@ ", and the achievement lines are free of tags
      and of surrounding white space. */
  lemma ExperienceEntryShape(e: Experience)
    ensures |ExperienceEntry(e)| == 3 + |e.achievements|
    ensures ExperienceEntry(e)[2] == "@ " + e.company
    ensures forall i :: 3 <= i < |ExperienceEntry(e)| ==>
      ExperienceEntry(e)[i] == CleanText(e.achievements[i - 3]) && NoTag(ExperienceEntry(e)[i])
  {
    var head := [e.role, FormatDateRange(Arrow, e.startDate, e.endDate, e.current), "@ " + e.company];
    var c := CleanEach(e.achievements);
    assert ExperienceEntry(e) == head + c;
    forall i | 3 <= i < |ExperienceEntry(e)|
      ensures ExperienceEntry(e)[i] == CleanText(e.achievements[i - 3]) && NoTag(ExperienceEntry(e)[i])
    {
      assert ExperienceEntry(e)[i] == c[i - 3];
    }
  }

  /** The institute line carries the location after ", " only when there is one. */
  lemma EducationEntryLine(e: Education)
    ensures |EducationEntry(e)| == 3
    ensures e.location == "" ==> EducationEntry(e)[2] == "@ " + e.institute
    ensures e.location != "" ==> EducationEntry(e)[2] == "@ " + e.institute + ", " + e.location
  {
  }

  /** A project with technologies ends in its stack line; one without ends
      in its description or name. */
  lemma ProjectStackLine(p: Project)
    ensures |p.technologies| > 0 ==>
      ProjectEntry(p)[|ProjectEntry(p)| - 1] == "Stack: " + Join(p.technologies, " • ")
    ensures |ProjectEntry(p)| == 1 + (if p.description != "" then 1 else 0) + (if |p.technologies| > 0 then 1 else 0)
  {
    ProjectLineCount(p, false, "Stack: ", " • ");
  }
}
