/** The small text rules the layouts share: `cleanText`, the basic layout's
    `processAchievements`, the comma-separated skill tags, the contact items
    a header prints, the education line, and the lines of a project card. */
module Lines {
  import opened Wrappers
  import opened JsString
  import opened CVTypes
  import opened HtmlParser

  /** A piece of a tag-free string is tag-free. */
  lemma NoTagSlice(s: string, a: nat, b: nat)
    requires NoTag(s) && a <= b <= |s|
    ensures NoTag(s[a..b])
  {
    var t := s[a..b];
    forall i, j | 0 <= i < j < |t| && t[i] == '<'
      ensures t[j] != '>'
    {
      assert t[i] == s[a + i] && t[j] == s[a + j];
    }
  }

  /** `html.replace(/<[^>]*>/g, '').trim()`. */
  function CleanText(html: string): (r: string)
    ensures NoTag(r) && IsTrimmed(r)
    ensures '<' !in html ==> r == Trim(html)
  {
    var stripped := StripTags(html);
    TrimIsSlice(stripped);
    NoTagSlice(stripped, |stripped| - |TrimStart(stripped)|, |stripped| - |TrimStart(stripped)| + |Trim(stripped)|);
    Trim(stripped)
  }

  /** Text that is already plain and trimmed comes back unchanged. */
  lemma CleanPlainText(s: string)
    requires '<' !in s && IsTrimmed(s)
    ensures CleanText(s) == s
  {
  }

  /** A tag-free string is left alone by tag stripping: everything before
      its first `<` is plain text, and no `>` follows that `<`. */
  lemma StripTagsNoClose(c: string)
    requires NoTag(c)
    ensures StripTags(c) == c
  {
    if '<' in c {
      var i := IndexOf(c, '<');
      assert '>' !in c[i..] by {
        forall k | 0 <= k < |c[i..]|
          ensures c[i..][k] != '>'
        {
          assert c[i..][k] == c[i + k];
        }
      }
      StripTagsSkipsText(c[..i], c[i..]);
      assert c[..i] + c[i..] == c;
    }
  }

  /** Cleaning is idempotent. */
  lemma CleanTextIdempotent(html: string)
    ensures CleanText(CleanText(html)) == CleanText(html)
  {
    StripTagsNoClose(CleanText(html));
  }

  /** Each achievement cleaned, in order. */
  function CleanEach(achievements: seq<string>): (r: seq<string>)
    ensures |r| == |achievements|
    ensures forall i :: 0 <= i < |r| ==> r[i] == CleanText(achievements[i])
  {
    if achievements == [] then []
    else [CleanText(achievements[0])] + CleanEach(achievements[1..])
  }

  /** The basic layout's `processAchievements`: each achievement cleaned,
      then `.filter(Boolean)` drops the ones that clean to "". */
  function CleanAchievements(achievements: seq<string>): (r: seq<string>)
    ensures |r| <= |achievements|
    ensures forall i :: 0 <= i < |r| ==> r[i] != ""
  {
    Compact(CleanEach(achievements))
  }

  /** What it keeps are the non-empty cleaned achievements, so each is
      tag-free and trimmed. */
  lemma CleanAchievementsMembers(achievements: seq<string>, x: string)
    ensures x in CleanAchievements(achievements)
      <==> x != "" && exists i :: 0 <= i < |achievements| && x == CleanText(achievements[i])
    ensures x in CleanAchievements(achievements) ==> NoTag(x) && IsTrimmed(x)
  {
  }

  /** Cleaning each entry distributes over concatenation. */
  lemma {:induction false} CleanEachConcat(a: seq<string>, b: seq<string>)
    ensures CleanEach(a + b) == CleanEach(a) + CleanEach(b)
  {
    if a == [] {
      assert a + b == b;
    } else {
      assert (a + b)[0] == a[0];
      assert (a + b)[1..] == a[1..] + b;
      CleanEachConcat(a[1..], b);
    }
  }

  /** It keeps the order: it distributes over concatenation. */
  lemma CleanAchievementsConcat(a: seq<string>, b: seq<string>)
    ensures CleanAchievements(a + b) == CleanAchievements(a) + CleanAchievements(b)
  {
    CleanEachConcat(a, b);
    CompactConcat(CleanEach(a), CleanEach(b));
  }

  /** An achievement that is nothing but markup and blanks disappears. */
  lemma CleanAchievementsDropsBlank(a: seq<string>, x: string, b: seq<string>)
    requires CleanText(x) == ""
    ensures CleanAchievements(a + ([x] + b)) == CleanAchievements(a) + CleanAchievements(b)
  {
    assert CleanEach([x]) == [""];
    assert Compact([""]) == [];
    var none := CleanAchievements([x]);
    assert none == [];
    CleanAchievementsConcat([x], b);
    var tail := CleanAchievements([x] + b);
    assert tail == CleanAchievements(b);
    CleanAchievementsConcat(a, [x] + b);
  }

  /** `filter(Boolean)` keeps a list whose every entry is non-empty. */
  lemma {:induction false} CompactAllNonEmpty(xs: seq<string>)
    requires forall i :: 0 <= i < |xs| ==> xs[i] != ""
    ensures Compact(xs) == xs
  {
    if xs != [] {
      CompactAllNonEmpty(xs[1..]);
    }
  }

  /** Achievements that are already plain, trimmed and non-empty pass through. */
  lemma CleanAchievementsPlain(a: seq<string>)
    requires forall i :: 0 <= i < |a| ==> a[i] != "" && '<' !in a[i] && IsTrimmed(a[i])
    ensures CleanAchievements(a) == a
  {
    forall i | 0 <= i < |a|
      ensures CleanEach(a)[i] == a[i]
    {
      CleanPlainText(a[i]);
    }
    assert CleanEach(a) == a;
    CompactAllNonEmpty(a);
  }

  /** `details.split(',').map(s => s.trim())`: one tag per comma-separated
      piece, empty pieces kept. */
  function SkillTags(details: string): (r: seq<string>)
    ensures |r| == |Split(details, ',')|
    ensures forall i :: 0 <= i < |r| ==> r[i] == Trim(Split(details, ',')[i]) && IsTrimmed(r[i])
  {
    var parts := Split(details, ',');
    seq(|parts|, i requires 0 <= i < |parts| => Trim(parts[i]))
  }

  /** A list with n commas gives n + 1 tags. */
  lemma SkillTagCount(details: string)
    ensures |SkillTags(details)| == Count(details, ',') + 1
  {
    SplitCount(details, ',');
  }

  /** Joining trimmed, comma-free tags with "," and splitting them again
      gives the same tags back. */
  lemma SkillTagsOfJoin(tags: seq<string>)
    requires |tags| >= 1
    requires forall i :: 0 <= i < |tags| ==> ',' !in tags[i] && IsTrimmed(tags[i])
    ensures SkillTags(Join(tags, ",")) == tags
  {
    SplitJoin(tags, ',');
  }

  /** `skills.flatMap(s => s.details.split(',').map(d => d.trim()))`. */
  function AllSkillTags(skills: seq<Skill>): (r: seq<string>)
    ensures |r| >= |skills|
    ensures forall i :: 0 <= i < |r| ==> IsTrimmed(r[i])
  {
    if skills == [] then [] else SkillTags(skills[0].details) + AllSkillTags(skills[1..])
  }

  /** The flat tag list lists each skill's tags in turn. */
  lemma {:induction false} AllSkillTagsConcat(a: seq<Skill>, b: seq<Skill>)
    ensures AllSkillTags(a + b) == AllSkillTags(a) + AllSkillTags(b)
  {
    if a == [] {
      assert a + b == b;
    } else {
      assert (a + b)[0] == a[0];
      assert (a + b)[1..] == a[1..] + b;
      AllSkillTagsConcat(a[1..], b);
    }
  }

  /** The email, phone and location values, in that order. */
  function ContactRowOne(b: BasicInfo): seq<string> {
    [b.email, b.phone, b.location]
  }

  /** The website, github and linkedin values, in that order. */
  function ContactRowTwo(b: BasicInfo): seq<string> {
    [b.website, b.github, b.linkedin]
  }

  /** The contact items a header prints: the six values in the order email,
      phone, location, website, github, linkedin, empty ones skipped (whether
      through `[...].filter(Boolean)` or through one `value && <...>` per
      value). */
  function ContactItems(b: BasicInfo): (r: seq<string>)
    ensures |r| <= 6
    ensures forall i :: 0 <= i < |r| ==> r[i] != ""
    ensures forall x :: x in r <==> x != "" && x in ContactRowOne(b) + ContactRowTwo(b)
  {
    Compact(ContactRowOne(b) + ContactRowTwo(b))
  }

  /** A header with every contact value filled in shows all six, in order. */
  lemma AllContactsShown(b: BasicInfo)
    requires b.email != "" && b.phone != "" && b.location != ""
    requires b.website != "" && b.github != "" && b.linkedin != ""
    ensures ContactItems(b) == [b.email, b.phone, b.location, b.website, b.github, b.linkedin]
  {
    CompactAllNonEmpty(ContactRowOne(b) + ContactRowTwo(b));
  }

  /** Splitting the contact items into two rows, the first three values and
      the last three, loses nothing and reorders nothing. */
  lemma TwoRowsAreContactItems(b: BasicInfo)
    ensures Compact(ContactRowOne(b)) + Compact(ContactRowTwo(b)) == ContactItems(b)
  {
    CompactConcat(ContactRowOne(b), ContactRowTwo(b));
  }

  /** `institute + (location ? `, ${location}` : '')`. */
  function EducationLine(institute: string, location: string): (r: string)
    ensures location == "" ==> r == institute
    ensures location != "" ==> |r| == |institute| + 2 + |location|
    ensures r[..|institute|] == institute
    ensures location != "" ==> r[|institute|..] == ", " + location
  {
    if location != "" then institute + ", " + location else institute
  }

  /** The institute line and, only when the location is non-empty, a
      separate location line. */
  function InstituteLines(e: Education): (r: seq<string>)
    ensures |r| >= 1 && r[0] == e.institute
    ensures |r| == 2 <==> e.location != ""
    ensures |r| == 2 ==> r[1] == e.location
  {
    [e.institute] + (if e.location != "" then [e.location] else [])
  }

  /** The two ways a layout prints an education entry's place carry the same
      text: the one-line form is the two-line form joined with ", ". */
  lemma EducationLineJoinsLines(e: Education)
    ensures EducationLine(e.institute, e.location) == Join(InstituteLines(e), ", ")
  {
  }

  /** What a project card shows, top to bottom: the name, then each
      optional line (None when the layout leaves it out). */
  datatype Card = Card(name: string, url: Option<string>, github: Option<string>, description: Option<string>, tech: Option<string>)

  /** `cond && <line>`. */
  function Shown(cond: bool, text: string): (r: Option<string>)
    ensures r.Some? <==> cond
    ensures r.Some? ==> r.value == text
  {
    if cond then Some(text) else None
  }

  /** One project card: the name, then the url and github (only in layouts
      that print them, `links`) when truthy, the description when non-empty,
      and `prefix + technologies.join(sep)` when there are technologies. */
  function ProjectCard(p: Project, links: bool, prefix: string, sep: string): (r: Card)
    ensures r.name == p.name
    ensures r.url.Some? <==> links && Truthy(p.url)
    ensures r.url.Some? ==> p.url == r.url && r.url.value != ""
    ensures r.github.Some? <==> links && Truthy(p.github)
    ensures r.github.Some? ==> p.github == r.github && r.github.value != ""
    ensures r.description.Some? <==> p.description != ""
    ensures r.description.Some? ==> r.description.value == p.description
    ensures r.tech.Some? <==> |p.technologies| > 0
    ensures r.tech.Some? ==> r.tech.value == prefix + Join(p.technologies, sep)
  {
    Card(p.name,
      Shown(links && Truthy(p.url), if p.url.Some? then p.url.value else ""),
      Shown(links && Truthy(p.github), if p.github.Some? then p.github.value else ""),
      Shown(p.description != "", p.description),
      Shown(|p.technologies| > 0, prefix + Join(p.technologies, sep)))
  }

  function LineOf(o: Option<string>): seq<string> {
    if o.Some? then [o.value] else []
  }

  /** The card's lines in display order. */
  function CardLines(c: Card): (r: seq<string>)
    ensures |r| >= 1 && r[0] == c.name
  {
    [c.name] + LineOf(c.url) + LineOf(c.github) + LineOf(c.description) + LineOf(c.tech)
  }

  /** A card has one line per present field plus the name. */
  lemma ProjectLineCount(p: Project, links: bool, prefix: string, sep: string)
    ensures |CardLines(ProjectCard(p, links, prefix, sep))|
      == 1 + (if links && Truthy(p.url) then 1 else 0) + (if links && Truthy(p.github) then 1 else 0)
        + (if p.description != "" then 1 else 0) + (if |p.technologies| > 0 then 1 else 0)
  {
  }

  /** Every line after the name has text: no blank optional line is drawn. */
  lemma CardLinesNonEmpty(p: Project, links: bool, prefix: string, sep: string, i: nat)
    requires 1 <= i < |CardLines(ProjectCard(p, links, prefix, sep))|
    requires prefix != ""
    ensures CardLines(ProjectCard(p, links, prefix, sep))[i] != ""
  {
    var c := ProjectCard(p, links, prefix, sep);
    assert c.tech.Some? ==> |c.tech.value| >= |prefix|;
  }

  /** One technology is printed after the prefix as it stands. */
  lemma SingleTechnology(p: Project, links: bool, prefix: string, sep: string)
    requires |p.technologies| == 1
    ensures ProjectCard(p, links, prefix, sep).tech == Some(prefix + p.technologies[0])
  {
  }

  /** A layout that does not print links gives the card of a linking layout
      with the url and github lines taken out. */
  lemma LinklessCard(p: Project, prefix: string, sep: string)
    ensures ProjectCard(p, false, prefix, sep)
      == ProjectCard(p.(url := None, github := None), true, prefix, sep)
  {
  }
}
