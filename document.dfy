/** What a layout puts on the page, as text. A layout is a function from
    the CV to a `Page`: the text drawn from the CV and the order it appears
    in are modelled; styling, icons, positions and purely decorative fixed
    text (section numbers, bullet glyphs drawn apart from their line,
    sidebar labels other than "Skills") are not. */
module Document {
  import opened Wrappers
  import opened CVTypes
  import opened JsString
  import opened DateFormat
  import opened Sections
  import opened Lines

  /** The header: the photo when one is drawn, the name, the role and the
      contact values shown. */
  datatype Header = Header(photo: Option<string>, name: string, role: string, contacts: seq<string>)

  /** One rendered section: its title (None where the layout prints none)
      and its text lines, top to bottom. */
  datatype Block = Block(section: SectionName, title: Option<string>, lines: seq<string>)

  /** A page: the header, the sidebar blocks, the lines the main column
      opens with, and the section blocks of the main column. */
  datatype Page = Page(header: Option<Header>, sidebar: seq<Block>, lead: seq<string>, main: seq<Block>)

  /** `basicInfo.photo && <Image src={basicInfo.photo} />`. */
  function Photo(b: BasicInfo): (r: Option<string>)
    ensures r.Some? <==> Truthy(b.photo)
    ensures r.Some? ==> r == b.photo && r.value != ""
  {
    if Truthy(b.photo) then b.photo else None
  }

  /** A header whose contact values are each guarded by their own truthiness,
      in the order email, phone, location, website, github, linkedin. */
  function StandardHeader(b: BasicInfo): (r: Header)
    ensures r.name == b.name && r.role == b.role
    ensures r.photo == Photo(b)
    ensures forall x :: x in r.contacts <==> x != "" && x in [b.email, b.phone, b.location, b.website, b.github, b.linkedin]
  {
    assert ContactRowOne(b) + ContactRowTwo(b) == [b.email, b.phone, b.location, b.website, b.github, b.linkedin];
    Header(Photo(b), b.name, b.role, ContactItems(b))
  }

  /** `xs.map(f)` with each entry's lines laid out in turn. */
  function FlatMap<T>(xs: seq<T>, f: T -> seq<string>): (r: seq<string>)
    ensures xs == [] ==> r == []
  {
    if xs == [] then [] else f(xs[0]) + FlatMap(xs[1..], f)
  }

  /** The lines of a list are the lines of its halves, in order. */
  lemma {:induction false} FlatMapConcat<T>(a: seq<T>, b: seq<T>, f: T -> seq<string>)
    ensures FlatMap(a + b, f) == FlatMap(a, f) + FlatMap(b, f)
  {
    if a == [] {
      assert a + b == b;
    } else {
      assert (a + b)[0] == a[0];
      assert (a + b)[1..] == a[1..] + b;
      FlatMapConcat(a[1..], b, f);
      ConcatAssoc(f(a[0]), FlatMap(a[1..], f), FlatMap(b, f));
    }
  }

  /** Every line of every entry is printed. */
  lemma {:induction false} FlatMapMember<T>(xs: seq<T>, f: T -> seq<string>, i: nat, line: string)
    requires i < |xs| && line in f(xs[i])
    ensures line in FlatMap(xs, f)
  {
    if i > 0 {
      FlatMapMember(xs[1..], f, i - 1, line);
    }
  }

  /** An entry list whose entries print n lines each prints n per entry. */
  lemma {:induction false} FlatMapUniform<T>(xs: seq<T>, f: T -> seq<string>, n: nat)
    requires forall i :: 0 <= i < |xs| ==> |f(xs[i])| == n
    ensures |FlatMap(xs, f)| == n * |xs|
  {
    if xs != [] {
      assert |f(xs[0])| == n;
      FlatMapUniform(xs[1..], f, n);
    }
  }

  /** The blocks of the sections shown, in order. */
  function Blocks(shown: seq<SectionName>, block: SectionName -> Block): (r: seq<Block>)
    ensures |r| == |shown|
    ensures forall i :: 0 <= i < |r| ==> r[i] == block(shown[i])
  {
    seq(|shown|, i requires 0 <= i < |shown| => block(shown[i]))
  }

  function SectionsOf(blocks: seq<Block>): (r: seq<SectionName>)
    ensures |r| == |blocks|
    ensures forall i :: 0 <= i < |r| ==> r[i] == blocks[i].section
  {
    seq(|blocks|, i requires 0 <= i < |blocks| => blocks[i].section)
  }

  /** Blocks that say which section they are keep the dispatch order. */
  lemma BlocksKeepSections(shown: seq<SectionName>, block: SectionName -> Block)
    requires forall s :: block(s).section == s
    ensures SectionsOf(Blocks(shown, block)) == shown
  {
  }

  /** The entry lines every layout prints for a job: the role, the date
      range, the company line, then the achievement lines. */
  function ExperienceLines(e: Experience, style: DateStyle, company: string, achievements: seq<string>): seq<string> {
    [e.role, FormatDateRange(style, e.startDate, e.endDate, e.current), company] + achievements
  }

  /** The degree and the date range an education entry opens with. */
  function DegreeLines(e: Education, style: DateStyle): seq<string> {
    [e.degree, FormatDateRange(style, e.startDate, e.endDate, e.current)]
  }

  /** A skill printed as its title over its details. */
  function SkillPair(s: Skill): seq<string> {
    [s.title, s.details]
  }
}
