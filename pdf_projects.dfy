/** `src/components/pdf/Sections/PDFProjectsSection.tsx`: the projects
    section of the basic PDF document. */
module PdfProjects {
  import opened Wrappers
  import opened CVTypes
  import opened JsString
  import opened Lines
  import opened Document

  /** One project: name, url, github, description (each when truthy) and
      "Tech: " with the technologies joined by ", " when there are some. */
  function ProjectEntry(p: Project): seq<string> {
    CardLines(ProjectCard(p, true, "Tech: ", ", "))
  }

  /** `PDFProjectsSection`: nothing at all for an empty list. */
  function PDFProjectsSection(projects: seq<Project>, sectionTitle: string): (r: Option<Block>)
    ensures r.None? <==> |projects| == 0
    ensures r.Some? ==> r.value.section == ProjectsSection && r.value.title == Some(sectionTitle)
  {
    if |projects| == 0 then None
    else Some(Block(ProjectsSection, Some(sectionTitle), FlatMap(projects, ProjectEntry)))
  }

  /** A card prints one line per truthy field besides the name. */
  lemma ProjectEntryCount(p: Project)
    ensures |ProjectEntry(p)|
      == 1 + (if Truthy(p.url) then 1 else 0) + (if Truthy(p.github) then 1 else 0)
        + (if p.description != "" then 1 else 0) + (if |p.technologies| > 0 then 1 else 0)
  {
    ProjectLineCount(p, true, "Tech: ", ", ");
  }

  /** The url line comes right after the name, when the url is truthy. */
  lemma UrlLine(p: Project)
    requires Truthy(p.url)
    ensures ProjectEntry(p)[1] == p.url.value
  {
  }
}
