/** `src/components/pdf/Sections/PDFEducationSection.tsx`: the education
    section of the basic PDF document. */
module PdfEducation {
  import opened Wrappers
  import opened CVTypes
  import opened DateStyles
  import opened Lines
  import opened Document

  /** One entry: degree, dates, institute, and the location on its own line
      when it is non-empty. */
  function EducationEntry(e: Education): seq<string> {
    DegreeLines(e, PdfSections) + InstituteLines(e)
  }

  /** `PDFEducationSection`. */
  function PDFEducationSection(education: seq<Education>, sectionTitle: string): (r: Block)
    ensures r.section == EducationSection && r.title == Some(sectionTitle)
    ensures education == [] ==> r.lines == []
  {
    Block(EducationSection, Some(sectionTitle), FlatMap(education, EducationEntry))
  }

  /** An entry prints four lines with a location and three without; the
      third is the institute and the fourth the location. */
  lemma EducationEntryShape(e: Education)
    ensures |EducationEntry(e)| == (if e.location != "" then 4 else 3)
    ensures EducationEntry(e)[2] == e.institute
    ensures e.location != "" ==> EducationEntry(e)[3] == e.location
  {
  }
}
