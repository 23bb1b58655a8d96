/** `src/components/pdf/Sections/PDFExperiencesSection.tsx`: the
    experience section of the basic PDF document. Achievements go through
    `processAchievements` (the rich-text flattener); `decode` is the
    browser's entity decoding it relies on. */
module PdfExperiences {
  import opened Wrappers
  import opened CVTypes
  import opened DateStyles
  import opened HtmlParser
  import opened Document

  /** `achievements && achievements.length > 0 && <View>...</View>`: the
      block of flattened achievements, absent for an empty list. */
  function AchievementBlock(decode: string -> string, achievements: seq<string>): (r: Option<seq<string>>)
    ensures r.None? <==> |achievements| == 0
    ensures r.Some? ==> |r.value| == |achievements|
    ensures r.Some? ==> forall i :: 0 <= i < |achievements| ==> r.value[i] == StructuredText(decode, achievements[i])
  {
    if |achievements| > 0 then Some(ProcessAchievements(decode, Some(achievements))) else None
  }

  function BlockLines(b: Option<seq<string>>): seq<string> {
    if b.Some? then b.value else []
  }

  /** One job: role, dates, company, then the flattened achievements. */
  function ExperienceEntry(decode: string -> string, e: Experience): seq<string> {
    ExperienceLines(e, PdfSections, e.company, BlockLines(AchievementBlock(decode, e.achievements)))
  }

  /** `PDFExperiencesSection`. */
  function PDFExperiencesSection(decode: string -> string, experiences: seq<Experience>, sectionTitle: string): (r: Block)
    ensures r.section == ExperiencesSection && r.title == Some(sectionTitle)
    ensures experiences == [] ==> r.lines == []
  {
    Block(ExperiencesSection, Some(sectionTitle), FlatMap(experiences, e => ExperienceEntry(decode, e)))
  }

  /** The length guard only decides whether an empty container is drawn:
      the text is that of flattening the whole list. */
  lemma GuardKeepsText(decode: string -> string, achievements: seq<string>)
    ensures BlockLines(AchievementBlock(decode, achievements)) == ProcessAchievements(decode, Some(achievements))
  {
  }

  /** A job prints three lines and one line per achievement; every
      achievement line is trimmed and has no run of three newlines. */
  lemma ExperienceEntryShape(decode: string -> string, e: Experience)
    ensures |ExperienceEntry(decode, e)| == 3 + |e.achievements|
    ensures ExperienceEntry(decode, e)[2] == e.company
    ensures forall i :: 3 <= i < |ExperienceEntry(decode, e)| ==>
      IsTrimmed(ExperienceEntry(decode, e)[i]) && NoTripleNewline(ExperienceEntry(decode, e)[i])
  {
    GuardKeepsText(decode, e.achievements);
  }
}
