/** `src/lib/json-utils.ts`: the shape check `validateCVData`, the import
    that deduplicates `sectionConfig.order`, and the JSON download name. */
module JsonUtils {
  import opened Wrappers
  import opened Json
  import opened JsString
  import opened CVTypes

  // ---------------------------------------------------------------------------
  // validateCVData: one predicate per `if` of the source

  predicate BasicInfoShape(o: Option<JValue>) {
    IsObj(o) && HasStr(o.value, "name") && HasStr(o.value, "role")
    && HasStr(o.value, "email") && HasStr(o.value, "phone")
  }

  predicate SummaryShape(o: Option<JValue>) {
    IsObj(o) && HasStr(o.value, "content")
  }

  predicate ExperienceShape(v: JValue) {
    IsObjectLike(v) && HasStr(v, "id") && HasStr(v, "role") && HasStr(v, "company")
    && HasStr(v, "startDate") && HasStr(v, "endDate") && HasArr(v, "achievements")
  }

  predicate EducationShape(v: JValue) {
    IsObjectLike(v) && HasStr(v, "id") && HasStr(v, "degree") && HasStr(v, "institute")
    && HasStr(v, "location") && HasStr(v, "startDate") && HasStr(v, "endDate")
  }

  predicate SkillShape(v: JValue) {
    IsObjectLike(v) && HasStr(v, "id") && HasStr(v, "title") && HasStr(v, "details")
  }

  predicate ProjectShape(v: JValue) {
    IsObjectLike(v) && HasStr(v, "id") && HasStr(v, "name") && HasStr(v, "description")
    && HasArr(v, "technologies")
  }

  predicate AllExperiences(o: Option<JValue>) {
    IsArr(o) && forall i :: 0 <= i < |o.value.items| ==> ExperienceShape(o.value.items[i])
  }

  predicate AllEducation(o: Option<JValue>) {
    IsArr(o) && forall i :: 0 <= i < |o.value.items| ==> EducationShape(o.value.items[i])
  }

  predicate AllSkills(o: Option<JValue>) {
    IsArr(o) && forall i :: 0 <= i < |o.value.items| ==> SkillShape(o.value.items[i])
  }

  predicate AllProjects(o: Option<JValue>) {
    IsArr(o) && forall i :: 0 <= i < |o.value.items| ==> ProjectShape(o.value.items[i])
  }

  predicate ActiveThemeShape(o: Option<JValue>) {
    IsStr(o) && o.value.s != ""
  }

  predicate SectionConfigShape(o: Option<JValue>) {
    IsObj(o) && HasObj(o.value, "visibility") && HasObj(o.value, "titles") && HasArr(o.value, "order")
  }

  /** What `validateCVData` accepts: a shape check, not a schema. */
  predicate IsCVData(v: JValue) {
    && IsObjectLike(v)
    && BasicInfoShape(Prop(v, "basicInfo"))
    && SummaryShape(Prop(v, "summary"))
    && AllExperiences(Prop(v, "experiences"))
    && AllEducation(Prop(v, "education"))
    && AllSkills(Prop(v, "skills"))
    && AllProjects(Prop(v, "projects"))
    && ActiveThemeShape(Prop(v, "activeTheme"))
    && SectionConfigShape(Prop(v, "sectionConfig"))
  }

  /** `validateCVData`: the checks in source order, each returning false
      early, the four collections walked element by element. Total: it
      answers for every JSON value. */
  method ValidateCVData(data: JValue) returns (ok: bool)
    ensures ok == IsCVData(data)
    ensures !IsObjectLike(data) ==> !ok
  {
    if !IsObjectLike(data) { return false; }
    if !BasicInfoShape(Prop(data, "basicInfo")) { return false; }
    if !SummaryShape(Prop(data, "summary")) { return false; }

    var experiences := Prop(data, "experiences");
    if !IsArr(experiences) { return false; }
    for i := 0 to |experiences.value.items|
      invariant forall j :: 0 <= j < i ==> ExperienceShape(experiences.value.items[j])
    {
      if !ExperienceShape(experiences.value.items[i]) { return false; }
    }

    var education := Prop(data, "education");
    if !IsArr(education) { return false; }
    for i := 0 to |education.value.items|
      invariant forall j :: 0 <= j < i ==> EducationShape(education.value.items[j])
    {
      if !EducationShape(education.value.items[i]) { return false; }
    }

    var skills := Prop(data, "skills");
    if !IsArr(skills) { return false; }
    for i := 0 to |skills.value.items|
      invariant forall j :: 0 <= j < i ==> SkillShape(skills.value.items[j])
    {
      if !SkillShape(skills.value.items[i]) { return false; }
    }

    var projects := Prop(data, "projects");
    if !IsArr(projects) { return false; }
    for i := 0 to |projects.value.items|
      invariant forall j :: 0 <= j < i ==> ProjectShape(projects.value.items[j])
    {
      if !ProjectShape(projects.value.items[i]) { return false; }
    }

    if !ActiveThemeShape(Prop(data, "activeTheme")) { return false; }
    if !SectionConfigShape(Prop(data, "sectionConfig")) { return false; }
    return true;
  }

  /** One malformed experience rejects the whole document. */
  lemma OneBadExperienceRejects(v: JValue, i: nat)
    requires IsArr(Prop(v, "experiences")) && i < |Prop(v, "experiences").value.items|
    requires !ExperienceShape(Prop(v, "experiences").value.items[i])
    ensures !IsCVData(v)
  {
  }

  /** Replaces one key of an object-valued property of `v`. */
  function SetNested(v: JValue, outer: string, key: string, x: JValue): JValue
    requires v.JObj? && outer in v.fields && v.fields[outer].JObj?
  {
    JObj(v.fields[outer := JObj(v.fields[outer].fields[key := x])])
  }

  /** basicInfo's location, website, github, linkedin and photo (every key but
      the four checked ones) can hold anything: acceptance does not change. */
  lemma BasicInfoExtrasUnchecked(v: JValue, key: string, x: JValue)
    requires v.JObj? && "basicInfo" in v.fields && v.fields["basicInfo"].JObj?
    requires key !in {"name", "role", "email", "phone"}
    ensures IsCVData(SetNested(v, "basicInfo", key, x)) == IsCVData(v)
  {
    var w := SetNested(v, "basicInfo", key, x);
    assert Prop(w, "basicInfo").value.fields == v.fields["basicInfo"].fields[key := x];
    forall k | k in {"summary", "experiences", "education", "skills", "projects", "activeTheme", "sectionConfig"}
      ensures Prop(w, k) == Prop(v, k)
    {
    }
    assert BasicInfoShape(Prop(w, "basicInfo")) == BasicInfoShape(Prop(v, "basicInfo")) by {
      forall k | k in {"name", "role", "email", "phone"}
        ensures Prop(Prop(w, "basicInfo").value, k) == Prop(Prop(v, "basicInfo").value, k)
      {
      }
    }
  }

  /** The entries of `sectionConfig.order` are never looked at: replacing
      the array by any other array keeps the verdict. */
  lemma OrderEntriesUnchecked(v: JValue, items: seq<JValue>)
    requires v.JObj? && "sectionConfig" in v.fields && v.fields["sectionConfig"].JObj?
    requires HasArr(v.fields["sectionConfig"], "order")
    ensures IsCVData(SetNested(v, "sectionConfig", "order", JArr(items))) == IsCVData(v)
  {
    var w := SetNested(v, "sectionConfig", "order", JArr(items));
    forall k | k in {"basicInfo", "summary", "experiences", "education", "skills", "projects", "activeTheme"}
      ensures Prop(w, k) == Prop(v, k)
    {
    }
    assert Prop(w, "sectionConfig").value.fields == v.fields["sectionConfig"].fields["order" := JArr(items)];
    var sw := Prop(w, "sectionConfig").value;
    var sv := Prop(v, "sectionConfig").value;
    assert Prop(sw, "visibility") == Prop(sv, "visibility");
    assert Prop(sw, "titles") == Prop(sv, "titles");
  }

  // ---------------------------------------------------------------------------
  // The JSON a document serialises to (`JSON.stringify` drops absent optionals)

  function StrArr(xs: seq<string>): (r: JValue)
    ensures r.JArr? && |r.items| == |xs| && forall i :: 0 <= i < |xs| ==> r.items[i] == JStr(xs[i])
  {
    JArr(seq(|xs|, i requires 0 <= i < |xs| => JStr(xs[i])))
  }

  function WithOptional<T>(m: map<string, JValue>, key: string, o: Option<T>, enc: T -> JValue): (r: map<string, JValue>)
    ensures forall k :: k in m && k != key ==> k in r && r[k] == m[k]
  {
    if o.Some? then m[key := enc(o.value)] else m
  }

  function EncodeBasicInfo(b: BasicInfo): JValue {
    JObj(WithOptional(map[
      "name" := JStr(b.name), "role" := JStr(b.role), "location" := JStr(b.location),
      "email" := JStr(b.email), "website" := JStr(b.website), "phone" := JStr(b.phone),
      "github" := JStr(b.github), "linkedin" := JStr(b.linkedin)], "photo", b.photo, s => JStr(s)))
  }

  function EncodeExperience(e: Experience): JValue {
    JObj(WithOptional(map[
      "id" := JStr(e.id), "role" := JStr(e.role), "company" := JStr(e.company),
      "startDate" := JStr(e.startDate), "endDate" := JStr(e.endDate),
      "achievements" := StrArr(e.achievements)], "current", e.current, b => JBool(b)))
  }

  function EncodeEducation(e: Education): JValue {
    JObj(WithOptional(map[
      "id" := JStr(e.id), "degree" := JStr(e.degree), "institute" := JStr(e.institute),
      "location" := JStr(e.location), "startDate" := JStr(e.startDate),
      "endDate" := JStr(e.endDate)], "current", e.current, b => JBool(b)))
  }

  function EncodeSkill(s: Skill): JValue {
    JObj(map["id" := JStr(s.id), "title" := JStr(s.title), "details" := JStr(s.details)])
  }

  function EncodeProject(p: Project): JValue {
    JObj(WithOptional(WithOptional(map[
      "id" := JStr(p.id), "name" := JStr(p.name), "description" := JStr(p.description),
      "technologies" := StrArr(p.technologies)], "url", p.url, s => JStr(s)), "github", p.github, s => JStr(s)))
  }

  function EncodeVisibility(v: Visibility): JValue {
    JObj(map[
      "basicInfo" := JBool(v.basicInfo), "summary" := JBool(v.summary),
      "experiences" := JBool(v.experiences), "education" := JBool(v.education),
      "skills" := JBool(v.skills), "projects" := JBool(v.projects)])
  }

  function EncodeTitles(t: Titles): JValue {
    JObj(map[
      "summary" := JStr(t.summary), "experiences" := JStr(t.experiences),
      "education" := JStr(t.education), "skills" := JStr(t.skills), "projects" := JStr(t.projects)])
  }

  function EncodeSectionConfig(c: SectionConfig): JValue {
    JObj(map[
      "visibility" := EncodeVisibility(c.visibility), "titles" := EncodeTitles(c.titles),
      "order" := StrArr(c.order)])
  }

  /** The JSON structure `exportCVData` writes for a document. */
  function Encode(d: CVData): JValue {
    JObj(map[
      "basicInfo" := EncodeBasicInfo(d.basicInfo),
      "summary" := JObj(map["content" := JStr(d.summary.content)]),
      "experiences" := JArr(seq(|d.experiences|, i requires 0 <= i < |d.experiences| => EncodeExperience(d.experiences[i]))),
      "education" := JArr(seq(|d.education|, i requires 0 <= i < |d.education| => EncodeEducation(d.education[i]))),
      "skills" := JArr(seq(|d.skills|, i requires 0 <= i < |d.skills| => EncodeSkill(d.skills[i]))),
      "projects" := JArr(seq(|d.projects|, i requires 0 <= i < |d.projects| => EncodeProject(d.projects[i]))),
      "activeTheme" := JStr(d.activeTheme),
      "sectionConfig" := EncodeSectionConfig(d.sectionConfig)])
  }

  lemma BasicInfoEncodingShape(b: BasicInfo)
    ensures BasicInfoShape(Some(EncodeBasicInfo(b)))
  {
    var f := EncodeBasicInfo(b).fields;
    assert f["name"] == JStr(b.name) && f["role"] == JStr(b.role);
    assert f["email"] == JStr(b.email) && f["phone"] == JStr(b.phone);
  }

  lemma ExperienceEncodingShape(e: Experience)
    ensures ExperienceShape(EncodeExperience(e))
  {
    var f := EncodeExperience(e).fields;
    assert f["id"] == JStr(e.id) && f["role"] == JStr(e.role) && f["company"] == JStr(e.company);
    assert f["startDate"] == JStr(e.startDate) && f["endDate"] == JStr(e.endDate);
    assert f["achievements"] == StrArr(e.achievements);
  }

  lemma EducationEncodingShape(e: Education)
    ensures EducationShape(EncodeEducation(e))
  {
    var f := EncodeEducation(e).fields;
    assert f["id"] == JStr(e.id) && f["degree"] == JStr(e.degree) && f["institute"] == JStr(e.institute);
    assert f["location"] == JStr(e.location);
    assert f["startDate"] == JStr(e.startDate) && f["endDate"] == JStr(e.endDate);
  }

  lemma ProjectEncodingShape(p: Project)
    ensures ProjectShape(EncodeProject(p))
  {
    var m := map[
      "id" := JStr(p.id), "name" := JStr(p.name), "description" := JStr(p.description),
      "technologies" := StrArr(p.technologies)];
    var m1 := WithOptional(m, "url", p.url, s => JStr(s));
    assert m1["id"] == JStr(p.id) && m1["name"] == JStr(p.name);
    assert m1["description"] == JStr(p.description) && m1["technologies"] == StrArr(p.technologies);
    var f := EncodeProject(p).fields;
    assert f == WithOptional(m1, "github", p.github, s => JStr(s));
    assert f["id"] == JStr(p.id) && f["name"] == JStr(p.name);
    assert f["description"] == JStr(p.description) && f["technologies"] == StrArr(p.technologies);
  }

  /** Every exported document passes the check except one whose activeTheme
      is empty, and that one is refused; so the validator accepts its own
      exports exactly when they name a theme. */
  lemma ExportPassesValidation(d: CVData)
    ensures IsCVData(Encode(d)) <==> d.activeTheme != ""
  {
    var v := Encode(d);
    EncodeProps(d);
    assert BasicInfoShape(Prop(v, "basicInfo")) by { BasicInfoEncodingShape(d.basicInfo); }
    assert SummaryShape(Prop(v, "summary"));
    assert AllExperiences(Prop(v, "experiences")) by { EncodedExperiences(d); }
    assert AllEducation(Prop(v, "education")) by { EncodedEducation(d); }
    assert AllSkills(Prop(v, "skills")) by { EncodedSkills(d); }
    assert AllProjects(Prop(v, "projects")) by { EncodedProjects(d); }
    assert SectionConfigShape(Prop(v, "sectionConfig"));
  }

  /** The top-level members of the export. */
  lemma EncodeProps(d: CVData)
    ensures Encode(d).JObj? && IsObjectLike(Encode(d))
    ensures Prop(Encode(d), "basicInfo") == Some(EncodeBasicInfo(d.basicInfo))
    ensures Prop(Encode(d), "summary") == Some(JObj(map["content" := JStr(d.summary.content)]))
    ensures Prop(Encode(d), "activeTheme") == Some(JStr(d.activeTheme))
    ensures Prop(Encode(d), "sectionConfig") == Some(EncodeSectionConfig(d.sectionConfig))
  {
  }

  lemma EncodedExperiences(d: CVData)
    ensures AllExperiences(Prop(Encode(d), "experiences"))
  {
    var ex := Prop(Encode(d), "experiences").value.items;
    forall i | 0 <= i < |ex| ensures ExperienceShape(ex[i]) {
      ExperienceEncodingShape(d.experiences[i]);
    }
  }

  lemma EncodedEducation(d: CVData)
    ensures AllEducation(Prop(Encode(d), "education"))
  {
    var ed := Prop(Encode(d), "education").value.items;
    forall i | 0 <= i < |ed| ensures EducationShape(ed[i]) {
      EducationEncodingShape(d.education[i]);
    }
  }

  lemma EncodedSkills(d: CVData)
    ensures AllSkills(Prop(Encode(d), "skills"))
  {
    var sk := Prop(Encode(d), "skills").value.items;
    forall i | 0 <= i < |sk| ensures SkillShape(sk[i]) {
      assert sk[i] == EncodeSkill(d.skills[i]);
    }
  }

  lemma EncodedProjects(d: CVData)
    ensures AllProjects(Prop(Encode(d), "projects"))
  {
    var pr := Prop(Encode(d), "projects").value.items;
    forall i | 0 <= i < |pr| ensures ProjectShape(pr[i]) {
      ProjectEncodingShape(d.projects[i]);
    }
  }

  // ---------------------------------------------------------------------------
  // importCVData: `Array.from(new Set(order))`

  predicate NoDuplicates(s: seq<JValue>) {
    forall i, j :: 0 <= i < j < |s| ==> !SameValueZero(s[i], s[j])
  }

  /** Keeps the first occurrence of every primitive and every array or object
      entry (each of those is a distinct reference). */
  function Dedup(s: seq<JValue>): (r: seq<JValue>)
    ensures NoDuplicates(r)
    ensures forall x :: x in r <==> x in s
    ensures |r| <= |s|
    decreases |s|
  {
    if s == [] then []
    else
      var head := Dedup(s[..|s| - 1]);
      var x := s[|s| - 1];
      assert s == s[..|s| - 1] + [x];
      if !IsObjectLike(x) && x in head then head else head + [x]
  }

  /** Dedup reads the order from left to right: what it makes of every prefix
      is a prefix of what it makes of the whole, so first occurrences keep
      their relative order. */
  lemma {:induction false} DedupPrefix(s: seq<JValue>, k: nat)
    requires k <= |s|
    ensures Dedup(s[..k]) <= Dedup(s)
    decreases |s| - k
  {
    if k < |s| {
      var t := s[..|s| - 1];
      assert s[..k] == t[..k];
      DedupPrefix(t, k);
    } else {
      assert s[..k] == s;
    }
  }

  /** An order that already has no duplicates is left as it is. */
  lemma {:induction false} DedupKeepsDistinct(s: seq<JValue>)
    requires NoDuplicates(s)
    ensures Dedup(s) == s
    decreases |s|
  {
    if s != [] {
      var t := s[..|s| - 1];
      var x := s[|s| - 1];
      assert NoDuplicates(t);
      DedupKeepsDistinct(t);
      assert s == t + [x];
    }
  }

  lemma DedupIdempotent(s: seq<JValue>)
    ensures Dedup(Dedup(s)) == Dedup(s)
  {
    DedupKeepsDistinct(Dedup(s));
  }

  function OrderItems(v: JValue): seq<JValue>
    requires IsCVData(v)
  {
    Prop(v, "sectionConfig").value.fields["order"].items
  }

  /** `b` is `a` with at most `sectionConfig.order` replaced: the same
      top-level keys, the same values under every key but `sectionConfig`,
      and the same values under every key of `sectionConfig` but `order`. */
  predicate SameButOrder(a: JValue, b: JValue) {
    a.JObj? && b.JObj? && a.fields.Keys == b.fields.Keys
    && "sectionConfig" in a.fields && a.fields["sectionConfig"].JObj? && b.fields["sectionConfig"].JObj?
    && a.fields["sectionConfig"].fields.Keys == b.fields["sectionConfig"].fields.Keys
    && (forall k :: k in a.fields && k != "sectionConfig" ==> b.fields[k] == a.fields[k])
    && (forall k :: k in a.fields["sectionConfig"].fields && k != "order" ==>
          b.fields["sectionConfig"].fields[k] == a.fields["sectionConfig"].fields[k])
  }

  datatype ImportError = SyntaxError | InvalidStructure

  /** `importCVData` after the text has been read: parse (a SyntaxError
      throws), validate (an invalid shape throws), then replace `order` by
      its deduplicated copy and keep everything else as parsed. */
  function ImportCVData(parse: string -> Option<JValue>, text: string): (r: Result<JValue, ImportError>)
    ensures parse(text).None? ==> r == Err(SyntaxError)
    ensures parse(text).Some? && !IsCVData(parse(text).value) ==> r == Err(InvalidStructure)
    ensures parse(text).Some? && IsCVData(parse(text).value) ==>
      r.Ok? && IsCVData(r.value)
      && OrderItems(r.value) == Dedup(OrderItems(parse(text).value))
      && SameButOrder(parse(text).value, r.value)
  {
    match parse(text)
    case None => Err(SyntaxError)
    case Some(data) =>
      if !IsCVData(data) then Err(InvalidStructure)
      else
        var order := OrderItems(data);
        var normalized := SetNested(data, "sectionConfig", "order", JArr(Dedup(order)));
        OrderEntriesUnchecked(data, Dedup(order));
        assert OrderItems(normalized) == Dedup(order);
        Ok(normalized)
  }

  /** `Array.from(new Set(order))` on an order of strings. */
  function DedupStrings(s: seq<string>): (r: seq<string>)
    ensures forall x :: x in r <==> x in s
    decreases |s|
  {
    if s == [] then []
    else
      var head := DedupStrings(s[..|s| - 1]);
      var x := s[|s| - 1];
      assert s == s[..|s| - 1] + [x];
      if x in head then head else head + [x]
  }

  /** Deduplicating the JSON form of a list of strings is deduplicating the
      strings. */
  lemma {:induction false} DedupStrArr(s: seq<string>)
    ensures Dedup(StrArr(s).items) == StrArr(DedupStrings(s)).items
    decreases |s|
  {
    if s != [] {
      var t := s[..|s| - 1];
      var x := s[|s| - 1];
      var items := StrArr(s).items;
      assert items[..|items| - 1] == StrArr(t).items;
      assert items[|items| - 1] == JStr(x);
      DedupStrArr(t);
      var h := DedupStrings(t);
      assert JStr(x) in StrArr(h).items <==> x in h;
      if x !in h {
        assert StrArr(h + [x]).items == StrArr(h).items + [JStr(x)];
      }
    }
  }

  /** An order without repeated names is its own deduplication. */
  lemma {:induction false} DedupStringsKeepsDistinct(s: seq<string>)
    requires forall i, j :: 0 <= i < j < |s| ==> s[i] != s[j]
    ensures DedupStrings(s) == s
    decreases |s|
  {
    if s != [] {
      var t := s[..|s| - 1];
      DedupStringsKeepsDistinct(t);
      assert s[|s| - 1] !in t;
    }
  }

  /** The document with `sectionConfig.order` deduplicated. */
  function WithDedupOrder(d: CVData): (r: CVData)
    ensures r.sectionConfig.order == DedupStrings(d.sectionConfig.order)
    ensures r.(sectionConfig := d.sectionConfig) == d
    ensures r.sectionConfig.(order := d.sectionConfig.order) == d.sectionConfig
  {
    d.(sectionConfig := d.sectionConfig.(order := DedupStrings(d.sectionConfig.order)))
  }

  /** Exporting a document and importing the file gives back the export of
      the same document with its order deduplicated: every other member
      survives unchanged, and an order that repeats a name loses the later
      copies. */
  lemma ExportImportRoundTrip(d: CVData, parse: string -> Option<JValue>, text: string)
    requires parse(text) == Some(Encode(d)) && d.activeTheme != ""
    ensures ImportCVData(parse, text) == Ok(Encode(WithDedupOrder(d)))
  {
    var v := Encode(d);
    ExportPassesValidation(d);
    var items := OrderItems(v);
    assert items == StrArr(d.sectionConfig.order).items;
    DedupStrArr(d.sectionConfig.order);
    var e := WithDedupOrder(d);
    var sc := v.fields["sectionConfig"];
    assert EncodeSectionConfig(e.sectionConfig).fields == sc.fields["order" := JArr(Dedup(items))];
    assert Encode(e).fields == v.fields["sectionConfig" := JObj(sc.fields["order" := JArr(Dedup(items))])];
  }

  /** When the order repeats no name, the import gives back exactly what
      was exported. */
  lemma ExportImportIdentity(d: CVData, parse: string -> Option<JValue>, text: string)
    requires parse(text) == Some(Encode(d)) && d.activeTheme != ""
    requires forall i, j :: 0 <= i < j < |d.sectionConfig.order| ==> d.sectionConfig.order[i] != d.sectionConfig.order[j]
    ensures ImportCVData(parse, text) == Ok(Encode(d))
  {
    ExportImportRoundTrip(d, parse, text);
    DedupStringsKeepsDistinct(d.sectionConfig.order);
    assert WithDedupOrder(d) == d;
  }

  /** An order that repeats a name comes back shorter: the import does not
      give back what was exported. */
  lemma RepeatedOrderNotPreserved(d: CVData, parse: string -> Option<JValue>, text: string)
    requires parse(text) == Some(Encode(d)) && d.activeTheme != ""
    requires d.sectionConfig.order == ["summary", "summary"]
    ensures ImportCVData(parse, text) != Ok(Encode(d))
  {
    ExportPassesValidation(d);
    var items := OrderItems(Encode(d));
    assert items == StrArr(d.sectionConfig.order).items;
    assert SameValueZero(items[0], items[1]);
    assert !NoDuplicates(items);
  }

  // ---------------------------------------------------------------------------
  // The JSON file name

  predicate IsSlugChar(c: char) {
    ('a' <= c <= 'z') || ('0' <= c <= '9') || c == '-'
  }

  /** `s.replace(/[^a-z0-9-]/g, '')`. */
  function KeepSlugChars(s: string): (r: string)
    ensures forall c :: c in r ==> IsSlugChar(c) && c in s
    ensures (forall c :: c in s ==> IsSlugChar(c)) ==> r == s
    ensures |r| <= |s|
  {
    if s == [] then []
    else (if IsSlugChar(s[0]) then [s[0]] else []) + KeepSlugChars(s[1..])
  }

  /** A string with no allowed character leaves nothing behind. */
  lemma {:induction false} KeepSlugNone(s: string)
    requires forall c :: c in s ==> !IsSlugChar(c)
    ensures KeepSlugChars(s) == []
    decreases |s|
  {
    if s != [] {
      assert s[0] in s;
      assert forall c :: c in s[1..] ==> c in s;
      KeepSlugNone(s[1..]);
    }
  }

  /** The slug of `exportCVData`: lower-case, white-space runs to one hyphen,
      then everything outside [a-z0-9-] deleted. */
  function JsonSlug(name: string): (r: string)
    ensures forall c :: c in r ==> IsSlugChar(c)
    ensures |r| <= |name|
  {
    KeepSlugChars(HyphenateWhitespace(ToLower(name)))
  }

  /** `cv-<slug>.json`: the prefix, then only [a-z0-9-] characters, then
      the extension. */
  function ExportFileName(name: string): (r: string)
    ensures |r| >= 8 && r[..3] == "cv-" && r[|r| - 5..] == ".json"
    ensures forall c :: c in r[3..|r| - 5] ==> IsSlugChar(c)
    ensures |r| <= |name| + 8
  {
    "cv-" + JsonSlug(name) + ".json"
  }

  /** A word made only of characters that lower-case to [a-z0-9]. */
  predicate IsNameWord(w: string) {
    forall c :: c in ToLower(w) ==> ('a' <= c <= 'z') || ('0' <= c <= '9')
  }

  lemma {:induction false} KeepSlugConcat(a: string, b: string)
    ensures KeepSlugChars(a + b) == KeepSlugChars(a) + KeepSlugChars(b)
    decreases |a|
  {
    if a == [] {
      assert a + b == b;
    } else {
      assert (a + b)[0] == a[0] && (a + b)[1..] == a[1..] + b;
      KeepSlugConcat(a[1..], b);
    }
  }

  /** A single word is only lower-cased. */
  lemma SlugOfWord(w: string)
    requires IsNameWord(w)
    ensures JsonSlug(w) == ToLower(w)
  {
    var l := ToLower(w);
    assert forall c :: c in l ==> !IsWhitespace(c);
    HyphenateWord(l, []);
    assert l + [] == l;
  }

  /** Two words with any run of white space between them ("John   Smith")
      give the two lower-cased words joined by one hyphen ("john-smith"). */
  lemma SlugOfTwoWords(a: string, gap: string, b: string)
    requires IsNameWord(a) && IsNameWord(b)
    requires gap != [] && forall c :: c in gap ==> IsWhitespace(c)
    ensures JsonSlug(a + gap + b) == ToLower(a) + "-" + ToLower(b)
  {
    var la, lg, lb := ToLower(a), ToLower(gap), ToLower(b);
    assert ToLower(a + gap + b) == la + lg + lb by {
      ToLowerConcat(a + gap, b);
      ToLowerConcat(a, gap);
    }
    assert |lg| == |gap|;
    var h := la + "-" + lb;
    assert HyphenateWhitespace(la + lg + lb) == h by {
      LowerGap(gap);
      HyphenateTwoWords(la, lg, lb);
    }
    assert forall c :: c in h ==> IsSlugChar(c) by {
      forall c | c in h ensures IsSlugChar(c) {
        assert c in la || c == '-' || c in lb;
      }
    }
    assert KeepSlugChars(h) == h;
  }

  lemma LowerGap(gap: string)
    requires forall c :: c in gap ==> IsWhitespace(c)
    ensures forall c :: c in ToLower(gap) ==> IsWhitespace(c)
  {
    var lg := ToLower(gap);
    forall c | c in lg ensures IsWhitespace(c) {
      var i :| 0 <= i < |lg| && lg[i] == c;
      assert gap[i] in gap;
    }
  }

  lemma HyphenateTwoWords(la: string, lg: string, lb: string)
    requires forall c :: c in la ==> ('a' <= c <= 'z') || ('0' <= c <= '9')
    requires forall c :: c in lb ==> ('a' <= c <= 'z') || ('0' <= c <= '9')
    requires lg != [] && forall c :: c in lg ==> IsWhitespace(c)
    ensures HyphenateWhitespace(la + lg + lb) == la + "-" + lb
  {
    assert lb == [] || !IsWhitespace(lb[0]) by {
      if lb != [] { assert lb[0] in lb; }
    }
    var e: string := [];
    HyphenateConcat(la + lg, lb);
    HyphenateWord(la, lg);
    HyphenateGap(lg, e);
    assert lg + e == lg;
    HyphenateWord(lb, e);
    assert lb + e == lb;
    var hg := HyphenateWhitespace(lg);
    var hb := HyphenateWhitespace(lb);
    assert hg == "-";
    assert hb == lb;
    assert HyphenateWhitespace(la + lg) == la + hg;
  }

  /** Characters outside [a-z0-9-] after lower-casing vanish: a trailing
      "!!" leaves no trace, nor does an accented letter. */
  lemma SlugDropsSymbols(a: string, junk: string)
    requires forall c :: c in ToLower(junk) ==> !IsSlugChar(c) && !IsWhitespace(c)
    ensures JsonSlug(a + junk) == JsonSlug(a)
  {
    var la, lj := ToLower(a), ToLower(junk);
    ToLowerConcat(a, junk);
    assert lj == [] || !IsWhitespace(lj[0]) by {
      if lj != [] { assert lj[0] in lj; }
    }
    HyphenateConcat(la, lj);
    HyphenateWord(lj, []);
    assert lj + [] == lj;
    KeepSlugConcat(HyphenateWhitespace(la), lj);
    KeepSlugNone(lj);
    assert JsonSlug(a) + [] == JsonSlug(a);
  }
}
