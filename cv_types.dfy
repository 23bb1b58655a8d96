/** The CV document: the records of `src/types/cv.types.ts` as datatypes.
    An optional TypeScript field (`photo?`, `current?`, `url?`, `github?`)
    is an Option; every other field is required. */
module CVTypes {
  import opened Wrappers

  datatype BasicInfo = BasicInfo(
    name: string, role: string, location: string, email: string, website: string,
    phone: string, github: string, linkedin: string, photo: Option<string>)

  datatype Summary = Summary(content: string)

  datatype Experience = Experience(
    id: string, role: string, company: string, startDate: string, endDate: string,
    current: Option<bool>, achievements: seq<string>)

  datatype Education = Education(
    id: string, degree: string, institute: string, location: string,
    startDate: string, endDate: string, current: Option<bool>)

  datatype Skill = Skill(id: string, title: string, details: string)

  datatype Project = Project(
    id: string, name: string, description: string, technologies: seq<string>,
    url: Option<string>, github: Option<string>)

  /** The six display flags: the five orderable sections and basicInfo. */
  datatype Visibility = Visibility(
    basicInfo: bool, summary: bool, experiences: bool, education: bool, skills: bool, projects: bool)

  /** One heading per orderable section; basicInfo has none. */
  datatype Titles = Titles(
    summary: string, experiences: string, education: string, skills: string, projects: string)

  /** `order` is declared as a list of the five section names, but nothing
      enforces that on an imported document, so it is held as strings. */
  datatype SectionConfig = SectionConfig(visibility: Visibility, titles: Titles, order: seq<string>)

  datatype CVData = CVData(
    basicInfo: BasicInfo, summary: Summary, experiences: seq<Experience>,
    education: seq<Education>, skills: seq<Skill>, projects: seq<Project>,
    activeTheme: string, sectionConfig: SectionConfig)

  /** The five orderable sections. */
  datatype SectionName = SummarySection | ExperiencesSection | EducationSection | SkillsSection | ProjectsSection

  /** The literal a section goes by in `order`. */
  function Key(s: SectionName): string {
    match s
    case SummarySection => "summary"
    case ExperiencesSection => "experiences"
    case EducationSection => "education"
    case SkillsSection => "skills"
    case ProjectsSection => "projects"
  }

  /** The section an `order` entry names, if it names one of the five. */
  function ParseSection(key: string): (r: Option<SectionName>)
    ensures r.Some? <==> key in {"summary", "experiences", "education", "skills", "projects"}
    ensures r.Some? ==> Key(r.value) == key
  {
    if key == "summary" then Some(SummarySection)
    else if key == "experiences" then Some(ExperiencesSection)
    else if key == "education" then Some(EducationSection)
    else if key == "skills" then Some(SkillsSection)
    else if key == "projects" then Some(ProjectsSection)
    else None
  }

  /** Key and ParseSection are inverse: each section has exactly one name. */
  lemma KeyRoundTrip(s: SectionName)
    ensures ParseSection(Key(s)) == Some(s)
  {
  }

  /** `visibility[key]` for an arbitrary string: the six flags by name, and
      false for every other key. Such a key reads as undefined, or as an
      inherited property (`constructor`, `toString`) that is truthy but names
      no section a switch case handles, so both render nothing. */
  function VisibleKey(v: Visibility, key: string): (b: bool)
    ensures key == "basicInfo" ==> b == v.basicInfo
    ensures ParseSection(key).Some? ==> b == Visible(v, ParseSection(key).value)
    ensures key != "basicInfo" && ParseSection(key).None? ==> !b
  {
    if key == "basicInfo" then v.basicInfo
    else match ParseSection(key)
      case Some(s) => Visible(v, s)
      case None => false
  }

  /** The flag of an orderable section. */
  function Visible(v: Visibility, s: SectionName): bool {
    match s
    case SummarySection => v.summary
    case ExperiencesSection => v.experiences
    case EducationSection => v.education
    case SkillsSection => v.skills
    case ProjectsSection => v.projects
  }

  /** The heading of an orderable section. */
  function Title(t: Titles, s: SectionName): string {
    match s
    case SummarySection => t.summary
    case ExperiencesSection => t.experiences
    case EducationSection => t.education
    case SkillsSection => t.skills
    case ProjectsSection => t.projects
  }

  /** JavaScript truthiness of an optional string: present and non-empty. */
  predicate Truthy(o: Option<string>) {
    o.Some? && o.value != ""
  }

  /** The renderer entry points a theme object can carry. */
  datatype Layout =
    | BasicSidebarLayout      // BasicDocument in themes/basic/index.tsx
    | BasicHtmlLayout         // BasicHTMLPreview in themes/basic/html-preview.tsx
    | BasicPdfLayout          // BasicPDFDocument in themes/basic/pdf-preview.tsx
    | ProgramadorLayout
    | ModernoLayout
    | AcademicoLayout

  /** A theme object. The declared type has only `Document`; the basic theme
      of themes/basic/index.ts carries `HTMLPreview` and `PDFDocument` instead,
      so each entry point is optional. */
  datatype CVTheme = CVTheme(
    id: string, name: string,
    document: Option<Layout>, htmlPreview: Option<Layout>, pdfDocument: Option<Layout>)
}
