/** `src/themes/moderno/index.tsx`: the "moderno" PDF document. The header
    prints `[email, phone, location, website, github, linkedin].filter(Boolean)`;
    the skills section is one flat list of tags. */
module Moderno {
  import opened Wrappers
  import opened CVTypes
  import opened JsString
  import opened DateFormat
  import opened DateStyles
  import opened Sections
  import opened HtmlParser
  import opened Lines
  import opened Document

  /** One job: role, dates, company, then every achievement cleaned. */
  function ExperienceEntry(e: Experience): seq<string> {
    ExperienceLines(e, EnDash, e.company, CleanEach(e.achievements))
  }

  /** One education entry: degree, dates, and the institute with the
      location after a comma when there is one. */
  function EducationEntry(e: Education): seq<string> {
    DegreeLines(e, EnDash) + [EducationLine(e.institute, e.location)]
  }

  /** One project: name, description, "Tecnologías: " and the
      technologies joined with ", "; no url or github line. */
  function ProjectEntry(p: Project): seq<string> {
    CardLines(ProjectCard(p, false, "Tecnologías: ", ", "))
  }

  function SectionBlock(d: CVData, s: SectionName): (r: Block)
    ensures r.section == s && r.title == Some(Title(d.sectionConfig.titles, s))
  {
    var lines := match s
      case SummarySection => [d.summary.content]
      case ExperiencesSection => FlatMap(d.experiences, ExperienceEntry)
      case EducationSection => FlatMap(d.education, EducationEntry)
      case SkillsSection => AllSkillTags(d.skills)
      case ProjectsSection => FlatMap(d.projects, ProjectEntry);
    Block(s, Some(Title(d.sectionConfig.titles, s)), lines)
  }

  /** `ModernoDocument`. */
  function ModernoDocument(d: CVData): (r: Page)
    ensures r.header == Some(StandardHeader(d.basicInfo)) && r.sidebar == [] && r.lead == []
    ensures SectionsOf(r.main) == Render(d.sectionConfig.order, d.sectionConfig.visibility, ListGuards(d))
    ensures forall i :: 0 <= i < |r.main| ==> r.main[i] == SectionBlock(d, r.main[i].section)
  {
    var shown := Render(d.sectionConfig.order, d.sectionConfig.visibility, ListGuards(d));
    var block := s => SectionBlock(d, s);
    BlocksKeepSections(shown, block);
    Page(Some(StandardHeader(d.basicInfo)), [], [], Blocks(shown, block))
  }

  /** A section is printed exactly when its name is in the order, its flag
      is set, and it is not an empty skills or projects list. */
  lemma SectionShown(d: CVData, s: SectionName)
    ensures s in SectionsOf(ModernoDocument(d).main)
      <==> (Key(s) in d.sectionConfig.order && Visible(d.sectionConfig.visibility, s)
        && (s == SkillsSection ==> |d.skills| > 0) && (s == ProjectsSection ==> |d.projects| > 0))
  {
    RenderMembers(d.sectionConfig.order, d.sectionConfig.visibility, ListGuards(d), s);
  }

  /** The skill tags are every skill's comma-separated pieces, trimmed, in
      order, empty pieces included: at least one tag per skill, and exactly
      one more than the commas for a single skill. */
  lemma SkillTagLines(d: CVData)
    ensures |SectionBlock(d, SkillsSection).lines| >= |d.skills|
    ensures forall i :: 0 <= i < |SectionBlock(d, SkillsSection).lines| ==> IsTrimmed(SectionBlock(d, SkillsSection).lines[i])
    ensures |d.skills| == 1 ==> |SectionBlock(d, SkillsSection).lines| == Count(d.skills[0].details, ',') + 1
  {
    if |d.skills| == 1 {
      assert AllSkillTags(d.skills) == SkillTags(d.skills[0].details) + AllSkillTags([]);
      SkillTagCount(d.skills[0].details);
    }
  }

  /** A job prints three lines and one cleaned line per achievement. */
  lemma ExperienceEntryShape(e: Experience)
    ensures |ExperienceEntry(e)| == 3 + |e.achievements|
    ensures ExperienceEntry(e)[2] == e.company
    ensures forall i :: 3 <= i < |ExperienceEntry(e)| ==>
      ExperienceEntry(e)[i] == CleanText(e.achievements[i - 3]) && NoTag(ExperienceEntry(e)[i])
  {
    var c := CleanEach(e.achievements);
    var head := [e.role, FormatDateRange(EnDash, e.startDate, e.endDate, e.current), e.company];
    assert ExperienceEntry(e) == head + c;
    forall i | 3 <= i < |ExperienceEntry(e)|
      ensures ExperienceEntry(e)[i] == CleanText(e.achievements[i - 3])
    {
      assert (head + c)[i] == c[i - 3];
    }
  }

  /** The institute line carries the location after ", " only when there is one. */
  lemma EducationEntryLine(e: Education)
    ensures |EducationEntry(e)| == 3
    ensures e.location == "" ==> EducationEntry(e)[2] == e.institute
    ensures e.location != "" ==> EducationEntry(e)[2] == e.institute + ", " + e.location
  {
  }

  /** A project with technologies ends in its technology line. */
  lemma ProjectTechLine(p: Project)
    ensures |p.technologies| > 0 ==>
      ProjectEntry(p)[|ProjectEntry(p)| - 1] == "Tecnologías: " + Join(p.technologies, ", ")
    ensures |ProjectEntry(p)| == 1 + (if p.description != "" then 1 else 0) + (if |p.technologies| > 0 then 1 else 0)
  {
    ProjectLineCount(p, false, "Tecnologías: ", ", ");
  }
}
