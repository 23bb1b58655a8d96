/** `src/themes/basic/index.tsx`: the basic layout's own two-column PDF
    document. The sidebar holds the photo, name, role, the contact values
    and the skills; the main column repeats the name and role and prints
    the other sections in the configured order. */
module Basic {
  import opened Wrappers
  import opened CVTypes
  import opened JsString
  import opened DateStyles
  import opened Sections
  import opened HtmlParser
  import opened Lines
  import opened Document
  import BasicHtml

  /** The bullet the other layouts draw in front of an achievement. */
  const Bullet: string := "\U{2022}"

  /** The three characters the achievement line is written with: the UTF-8
      bytes of the bullet read as Windows-1252. */
  const MisencodedBullet: string := "\U{00E2}\U{20AC}\U{00A2}"

  /** The achievement line as the file writes it: the three misread
      characters, a space, the text. */
  function AchievementLineAsWritten(a: string): (r: string)
    ensures |r| == |a| + 4 && r[..3] == MisencodedBullet && r[3] == ' ' && r[4..] == a
  {
    MisencodedBullet + " " + a
  }

  /** The achievement line as intended: the bullet, a space, the text. */
  function AchievementLine(a: string): (r: string)
    ensures |r| == |a| + 2 && r[0] == '\U{2022}' && r[1] == ' ' && r[2..] == a
  {
    Bullet + " " + a
  }

  /** The line as written opens with "â", not with the bullet, and is two
      characters longer than intended. */
  lemma AchievementLineMisencoded(a: string)
    ensures AchievementLineAsWritten(a)[0] == '\U{00E2}'
    ensures AchievementLineAsWritten(a) != AchievementLine(a)
    ensures |AchievementLineAsWritten(a)| == |AchievementLine(a)| + 2
  {
    assert AchievementLineAsWritten(a)[0] == MisencodedBullet[0];
  }

  /** The achievement lines as the layout draws them, with the bullet as
      written. */
  function Bulleted(xs: seq<string>): (r: seq<string>)
    ensures |r| == |xs|
    ensures forall i :: 0 <= i < |r| ==> r[i] == AchievementLineAsWritten(xs[i])
  {
    seq(|xs|, i requires 0 <= i < |xs| => AchievementLineAsWritten(xs[i]))
  }

  /** One job: role, dates, company, then a bulleted line for each
      achievement that is not blank once cleaned (`processAchievements`). */
  function ExperienceEntry(e: Experience): seq<string> {
    ExperienceLines(e, BasicStyle, e.company, Bulleted(CleanAchievements(e.achievements)))
  }

  /** One entry: degree, dates, institute, and the location on its own line
      when it is non-empty. */
  function EducationEntry(e: Education): seq<string> {
    DegreeLines(e, BasicStyle) + InstituteLines(e)
  }

  /** One project: name, description, "Tech: " and the technologies joined
      with ", "; no url or github line. */
  function ProjectEntry(p: Project): seq<string> {
    CardLines(ProjectCard(p, false, "Tech: ", ", "))
  }

  /** A skill group in the sidebar: the title, then one tag per
      comma-separated piece, trimmed. */
  function SkillGroup(s: Skill): seq<string> {
    [s.title] + SkillTags(s.details)
  }

  /** The sidebar skills block, under the fixed label "Skills", drawn when
      the skills flag is set and there are skills, wherever (and whether)
      "skills" sits in the order. */
  function Sidebar(d: CVData): (r: seq<Block>)
    ensures |r| <= 1
    ensures |r| == 1 <==> d.sectionConfig.visibility.skills && |d.skills| > 0
    ensures |r| == 1 ==> r[0] == Block(SkillsSection, Some("Skills"), FlatMap(d.skills, SkillGroup))
  {
    if d.sectionConfig.visibility.skills && |d.skills| > 0 then
      [Block(SkillsSection, Some("Skills"), FlatMap(d.skills, SkillGroup))]
    else []
  }

  /** The main-column section components. Skills never reach this switch. */
  function SectionBlock(d: CVData, s: SectionName): (r: Block)
    ensures r.section == s && r.title == Some(Title(d.sectionConfig.titles, s))
  {
    var lines := match s
      case SummarySection => [d.summary.content]
      case ExperiencesSection => FlatMap(d.experiences, ExperienceEntry)
      case EducationSection => FlatMap(d.education, EducationEntry)
      case SkillsSection => []
      case ProjectsSection => FlatMap(d.projects, ProjectEntry);
    Block(s, Some(Title(d.sectionConfig.titles, s)), lines)
  }

  /** `BasicDocument`. */
  function BasicDocument(d: CVData): (r: Page)
    ensures r.header == Some(StandardHeader(d.basicInfo))
    ensures r.sidebar == Sidebar(d)
    ensures r.lead == [d.basicInfo.name, d.basicInfo.role]
    ensures SectionsOf(r.main) == Render(d.sectionConfig.order, d.sectionConfig.visibility, MainColumnGuard(d))
    ensures forall i :: 0 <= i < |r.main| ==> r.main[i] == SectionBlock(d, r.main[i].section)
  {
    var shown := Render(d.sectionConfig.order, d.sectionConfig.visibility, MainColumnGuard(d));
    var block := s => SectionBlock(d, s);
    BlocksKeepSections(shown, block);
    Page(Some(StandardHeader(d.basicInfo)), Sidebar(d), [d.basicInfo.name, d.basicInfo.role], Blocks(shown, block))
  }

  /** A main-column section is printed exactly when its name is in the
      order, its flag is set, it is not skills, and it is not an empty
      project list. */
  lemma SectionShown(d: CVData, s: SectionName)
    ensures s in SectionsOf(BasicDocument(d).main)
      <==> (Key(s) in d.sectionConfig.order && Visible(d.sectionConfig.visibility, s)
        && s != SkillsSection && (s == ProjectsSection ==> |d.projects| > 0))
  {
    RenderMembers(d.sectionConfig.order, d.sectionConfig.visibility, MainColumnGuard(d), s);
  }

  /** Moving "skills" around in the order, or dropping it, changes nothing
      on the page. */
  lemma SkillsIgnoreOrder(d: CVData, order: seq<string>)
    requires forall i :: 0 <= i < |order| ==> order[i] != "skills"
    ensures BasicDocument(d.(sectionConfig := d.sectionConfig.(order := order + ["skills"])))
      == BasicDocument(d.(sectionConfig := d.sectionConfig.(order := order)))
  {
    var v := d.sectionConfig.visibility;
    RenderConcat(order, ["skills"], v, MainColumnGuard(d));
    assert Render(["skills"], v, MainColumnGuard(d)) == [];
    var d1 := d.(sectionConfig := d.sectionConfig.(order := order + ["skills"]));
    var d2 := d.(sectionConfig := d.sectionConfig.(order := order));
    assert MainColumnGuard(d1) == MainColumnGuard(d2) == MainColumnGuard(d);
  }

  /** A job prints at most one line per achievement: the bullet as written,
      a space, and a tag-free, non-blank cleaned achievement. */
  lemma ExperienceEntryShape(e: Experience)
    ensures 3 <= |ExperienceEntry(e)| <= 3 + |e.achievements|
    ensures forall i :: 3 <= i < |ExperienceEntry(e)| ==>
      ExperienceEntry(e)[i][..3] == MisencodedBullet
      && ExperienceEntry(e)[i][4..] != "" && NoTag(ExperienceEntry(e)[i][4..])
  {
    var c := CleanAchievements(e.achievements);
    forall i | 3 <= i < |ExperienceEntry(e)|
      ensures ExperienceEntry(e)[i][..3] == MisencodedBullet
        && ExperienceEntry(e)[i][4..] != "" && NoTag(ExperienceEntry(e)[i][4..])
    {
      assert ExperienceEntry(e)[i] == AchievementLineAsWritten(c[i - 3]);
      CleanAchievementsMembers(e.achievements, c[i - 3]);
    }
  }

  /** An education entry prints four lines with a location and three
      without: degree, dates, institute, then the location. */
  lemma EducationEntryShape(e: Education)
    ensures |EducationEntry(e)| == (if e.location != "" then 4 else 3)
    ensures EducationEntry(e)[0] == e.degree && EducationEntry(e)[2] == e.institute
    ensures e.location != "" ==> EducationEntry(e)[3] == e.location
  {
  }

  /** A project card here is the linking preview's card with the url and
      github left out: the name, then the description and "Tech: " line
      when present. */
  lemma ProjectEntryNoLinks(p: Project)
    ensures ProjectEntry(p) == BasicHtml.ProjectEntry(p.(url := None, github := None))
    ensures |ProjectEntry(p)| == 1 + (if p.description != "" then 1 else 0) + (if |p.technologies| > 0 then 1 else 0)
  {
    LinklessCard(p, "Tech: ", ", ");
    ProjectLineCount(p, false, "Tech: ", ", ");
  }

  /** A skill group is its title over n + 1 trimmed tags for n commas. */
  lemma SkillGroupShape(s: Skill)
    ensures |SkillGroup(s)| == Count(s.details, ',') + 2
    ensures SkillGroup(s)[0] == s.title
    ensures forall i :: 1 <= i < |SkillGroup(s)| ==> IsTrimmed(SkillGroup(s)[i])
  {
    SkillTagCount(s.details);
  }

  /** The sidebar prints each skill's title and tags in skill order. */
  lemma SidebarSkillLines(d: CVData, i: nat, tag: string)
    requires d.sectionConfig.visibility.skills && i < |d.skills|
    requires tag in SkillTags(d.skills[i].details)
    ensures tag in Sidebar(d)[0].lines && d.skills[i].title in Sidebar(d)[0].lines
  {
    FlatMapMember(d.skills, SkillGroup, i, tag);
    FlatMapMember(d.skills, SkillGroup, i, d.skills[i].title);
  }
}
