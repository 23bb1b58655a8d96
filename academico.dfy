/** `src/themes/academico/index.tsx`: the "académico" PDF document. The
    header prints its contact values on two rows; each skill is one line
    "title: details". The experience, education and project entries are
    the same, character for character, as the moderno layout's. */
module Academico {
  import opened Wrappers
  import opened CVTypes
  import opened JsString
  import opened Sections
  import opened Lines
  import opened Document
  import Moderno

  /** Row one: email, phone, location; row two: website, github, linkedin;
      each value only when truthy. */
  function AcademicoHeader(b: BasicInfo): (r: Header)
    ensures r.photo == Photo(b) && r.name == b.name && r.role == b.role
    ensures |r.contacts| == |Compact(ContactRowOne(b))| + |Compact(ContactRowTwo(b))|
  {
    Header(Photo(b), b.name, b.role, Compact(ContactRowOne(b)) + Compact(ContactRowTwo(b)))
  }

  /** `{skill.title}: {skill.details}`. */
  function SkillLine(s: Skill): seq<string> {
    [s.title + ": " + s.details]
  }

  function SectionBlock(d: CVData, s: SectionName): (r: Block)
    ensures r.section == s && r.title == Some(Title(d.sectionConfig.titles, s))
  {
    var lines := match s
      case SummarySection => [d.summary.content]
      case ExperiencesSection => FlatMap(d.experiences, Moderno.ExperienceEntry)
      case EducationSection => FlatMap(d.education, Moderno.EducationEntry)
      case SkillsSection => FlatMap(d.skills, SkillLine)
      case ProjectsSection => FlatMap(d.projects, Moderno.ProjectEntry);
    Block(s, Some(Title(d.sectionConfig.titles, s)), lines)
  }

  /** `AcademicoDocument`. */
  function AcademicoDocument(d: CVData): (r: Page)
    ensures r.header == Some(AcademicoHeader(d.basicInfo)) && r.sidebar == [] && r.lead == []
    ensures SectionsOf(r.main) == Render(d.sectionConfig.order, d.sectionConfig.visibility, ListGuards(d))
    ensures forall i :: 0 <= i < |r.main| ==> r.main[i] == SectionBlock(d, r.main[i].section)
  {
    var shown := Render(d.sectionConfig.order, d.sectionConfig.visibility, ListGuards(d));
    var block := s => SectionBlock(d, s);
    BlocksKeepSections(shown, block);
    Page(Some(AcademicoHeader(d.basicInfo)), [], [], Blocks(shown, block))
  }

  /** The two rows together are the one-row header of the other layouts:
      the same values in the same order. */
  lemma HeaderIsStandard(b: BasicInfo)
    ensures AcademicoHeader(b) == StandardHeader(b)
  {
    TwoRowsAreContactItems(b);
  }

  /** A section is printed exactly when its name is in the order, its flag
      is set, and it is not an empty skills or projects list. */
  lemma SectionShown(d: CVData, s: SectionName)
    ensures s in SectionsOf(AcademicoDocument(d).main)
      <==> (Key(s) in d.sectionConfig.order && Visible(d.sectionConfig.visibility, s)
        && (s == SkillsSection ==> |d.skills| > 0) && (s == ProjectsSection ==> |d.projects| > 0))
  {
    RenderMembers(d.sectionConfig.order, d.sectionConfig.visibility, ListGuards(d), s);
  }

  /** One line per skill, "title: details". */
  lemma SkillLines(d: CVData)
    ensures |SectionBlock(d, SkillsSection).lines| == |d.skills|
  {
    FlatMapUniform(d.skills, SkillLine, 1);
  }

  /** Only the header and the skills block tell this layout from moderno:
      every other section prints the same lines. */
  lemma SameEntriesAsModerno(d: CVData, s: SectionName)
    requires s != SkillsSection
    ensures SectionBlock(d, s) == Moderno.SectionBlock(d, s)
  {
  }
}
