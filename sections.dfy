/** The section-dispatch rule every layout repeats:

      order.map(section => {
        if (!visibility[section]) return null
        switch (section) { case 'summary': ...; default: return null }
      })

    Each case either renders its section or, through an empty-list guard of
    the layout, nothing. `Render` is that map with the nulls left out; `keep`
    carries the layout's own guards. */
module Sections {
  import opened Wrappers
  import opened CVTypes

  /** What one `order` entry renders: nothing when its visibility flag is
      falsy, nothing for a name outside the five cases (which covers
      "basicInfo", whose flag exists but which has no case), and otherwise
      the section if the layout's guard lets it through. */
  function Dispatch(vis: Visibility, keep: SectionName -> bool, key: string): (r: Option<SectionName>)
    ensures r.Some? ==> Key(r.value) == key && Visible(vis, r.value) && keep(r.value)
    ensures ParseSection(key).Some? && Visible(vis, ParseSection(key).value) && keep(ParseSection(key).value)
      ==> r == ParseSection(key)
    ensures ParseSection(key).None? ==> r.None?
  {
    if !VisibleKey(vis, key) then None
    else match ParseSection(key)
      case None => None
      case Some(s) => if keep(s) then Some(s) else None
  }

  /** The sections `order` renders, in order. */
  function Render(order: seq<string>, vis: Visibility, keep: SectionName -> bool): (r: seq<SectionName>)
    ensures |r| <= |order|
  {
    if order == [] then []
    else
      var rest := Render(order[1..], vis, keep);
      match Dispatch(vis, keep, order[0])
      case Some(s) => [s] + rest
      case None => rest
  }

  /** The known section names in `order`, unknown entries dropped. */
  function Known(order: seq<string>): (r: seq<SectionName>)
    ensures |r| <= |order|
    ensures forall s :: s in r <==> Key(s) in order
  {
    if order == [] then []
    else
      var rest := Known(order[1..]);
      assert forall s :: Key(s) in order <==> Key(s) == order[0] || Key(s) in order[1..];
      match ParseSection(order[0])
      case Some(s) => [s] + rest
      case None => rest
  }

  /** The sections of `ss` that satisfy `p`, in order. */
  function Filter(ss: seq<SectionName>, p: SectionName -> bool): (r: seq<SectionName>)
    ensures |r| <= |ss|
    ensures forall s :: s in r <==> s in ss && p(s)
  {
    if ss == [] then []
    else (if p(ss[0]) then [ss[0]] else []) + Filter(ss[1..], p)
  }

  /** The dispatch is exactly "the known names of `order`, kept when visible
      and let through by the layout's guards", order preserved. */
  lemma {:induction false} RenderIsFilter(order: seq<string>, vis: Visibility, keep: SectionName -> bool)
    ensures Render(order, vis, keep) == Filter(Known(order), s => Visible(vis, s) && keep(s))
  {
    if order != [] {
      RenderIsFilter(order[1..], vis, keep);
      match ParseSection(order[0])
      case Some(s) =>
        assert Known(order) == [s] + Known(order[1..]);
      case None =>
    }
  }

  /** A section is rendered exactly when its name is in `order`, its flag is
      set and the layout's guard lets it through. */
  lemma RenderMembers(order: seq<string>, vis: Visibility, keep: SectionName -> bool, s: SectionName)
    ensures s in Render(order, vis, keep) <==> Key(s) in order && Visible(vis, s) && keep(s)
  {
    RenderIsFilter(order, vis, keep);
  }

  /** Rendering distributes over concatenation of `order`. */
  lemma {:induction false} RenderConcat(a: seq<string>, b: seq<string>, vis: Visibility, keep: SectionName -> bool)
    ensures Render(a + b, vis, keep) == Render(a, vis, keep) + Render(b, vis, keep)
  {
    if a == [] {
      assert a + b == b;
    } else {
      assert (a + b)[0] == a[0];
      assert (a + b)[1..] == a[1..] + b;
      RenderConcat(a[1..], b, vis, keep);
    }
  }

  predicate DistinctKeys(order: seq<string>) {
    forall i, j :: 0 <= i < j < |order| ==> order[i] != order[j]
  }

  predicate DistinctSections(r: seq<SectionName>) {
    forall i, j :: 0 <= i < j < |r| ==> r[i] != r[j]
  }

  /** An `order` without repeated names (as import leaves it) renders each
      section at most once. */
  lemma {:induction false} RenderDistinct(order: seq<string>, vis: Visibility, keep: SectionName -> bool)
    requires DistinctKeys(order)
    ensures DistinctSections(Render(order, vis, keep))
  {
    if order != [] {
      RenderDistinct(order[1..], vis, keep);
      var rest := Render(order[1..], vis, keep);
      match Dispatch(vis, keep, order[0])
      case Some(s) =>
        RenderMembers(order[1..], vis, keep, s);
        assert Key(s) !in order[1..];
      case None =>
    }
  }

  /** Guards only remove sections: every section a theme with more guards
      renders is also rendered by one with fewer. */
  lemma {:induction false} StrongerGuardRendersLess(order: seq<string>, vis: Visibility, keep1: SectionName -> bool, keep2: SectionName -> bool, s: SectionName)
    requires forall t :: keep1(t) ==> keep2(t)
    ensures s in Render(order, vis, keep1) ==> s in Render(order, vis, keep2)
  {
    RenderMembers(order, vis, keep1, s);
    RenderMembers(order, vis, keep2, s);
  }

  /** Two layouts whose guards agree render the same sections in the same order. */
  lemma {:induction false} SameGuardsSameSections(order: seq<string>, vis: Visibility, keep1: SectionName -> bool, keep2: SectionName -> bool)
    requires forall t :: keep1(t) == keep2(t)
    ensures Render(order, vis, keep1) == Render(order, vis, keep2)
  {
    if order != [] {
      SameGuardsSameSections(order[1..], vis, keep1, keep2);
    }
  }

  /** The guards of the programador, moderno and academico documents:
      `if (skills.length === 0) return null` in the skills section and the
      same test on projects. */
  function ListGuards(d: CVData): SectionName -> bool {
    s => (s == SkillsSection ==> |d.skills| > 0) && (s == ProjectsSection ==> |d.projects| > 0)
  }

  /** The guard of the basic HTML preview and PDF document: only an empty
      project list suppresses its section. */
  function ProjectGuard(d: CVData): SectionName -> bool {
    s => s == ProjectsSection ==> |d.projects| > 0
  }

  /** The main column of the basic layout's own document: skills never
      (they live in the sidebar), projects only when there are some. */
  function MainColumnGuard(d: CVData): SectionName -> bool {
    s => s != SkillsSection && (s == ProjectsSection ==> |d.projects| > 0)
  }
}
