/** The theme registry of themes/index.ts: one module-level `Map` from theme
    id to theme, written by `registerTheme` and read by `getTheme`,
    `getAllThemes` and `hasTheme`. A JavaScript `Map` remembers its keys in
    first-insertion order and `set` on a present key replaces the value in
    place, so the registry is its ids in that order plus the id-to-theme map.
    What a sequence of registrations leaves behind is stated on its own first,
    as functions of the registration history. */
module ThemeRegistry {
  import opened Wrappers
  import opened CVTypes

  /** The ids of a registration history, call by call. */
  function Ids(h: seq<CVTheme>): (r: seq<string>)
    ensures |r| == |h|
    ensures forall i :: 0 <= i < |h| ==> r[i] == h[i].id
  {
    if h == [] then [] else Ids(h[..|h| - 1]) + [h[|h| - 1].id]
  }

  /** Each id once, at the place of its first occurrence. */
  function FirstOrder(ks: seq<string>): seq<string> {
    if ks == [] then []
    else
      var p := FirstOrder(ks[..|ks| - 1]);
      var k := ks[|ks| - 1];
      if k in p then p else p + [k]
  }

  /** Every id is kept, and only once. */
  lemma {:induction false} FirstOrderMembers(ks: seq<string>)
    ensures forall k :: k in FirstOrder(ks) <==> k in ks
    ensures forall i, j :: 0 <= i < j < |FirstOrder(ks)| ==> FirstOrder(ks)[i] != FirstOrder(ks)[j]
  {
    if ks != [] {
      var q := ks[..|ks| - 1];
      FirstOrderMembers(q);
      assert ks == q + [ks[|ks| - 1]];
      assert forall x :: x in ks <==> x in q || x == ks[|ks| - 1];
    }
  }

  /** Where `k` first occurs in `ks`. */
  function FirstIndex(ks: seq<string>, k: string): (i: nat)
    requires k in ks
    ensures i < |ks| && ks[i] == k
    ensures forall j :: 0 <= j < i ==> ks[j] != k
  {
    if ks[0] == k then 0 else 1 + FirstIndex(ks[1..], k)
  }

  /** The map the calls build: each call binds its theme's id, replacing any
      earlier binding. */
  function MapOf(h: seq<CVTheme>): map<string, CVTheme> {
    if h == [] then map[]
    else MapOf(h[..|h| - 1])[h[|h| - 1].id := h[|h| - 1]]
  }

  /** The map's keys are the registered ids. */
  lemma {:induction false} MapOfKeys(h: seq<CVTheme>)
    ensures forall k :: k in MapOf(h) <==> k in Ids(h)
  {
    if h != [] {
      var q := h[..|h| - 1];
      MapOfKeys(q);
      assert Ids(h) == Ids(q) + [h[|h| - 1].id];
    }
  }

  /** The last theme registered under `id`, searched from the end. */
  function LastRegistered(h: seq<CVTheme>, id: string): Option<CVTheme> {
    if h == [] then None
    else if h[|h| - 1].id == id then Some(h[|h| - 1])
    else LastRegistered(h[..|h| - 1], id)
  }

  /** The search finds a registration of `id`, or there is none. */
  lemma {:induction false} LastRegisteredFound(h: seq<CVTheme>, id: string)
    ensures LastRegistered(h, id).Some? ==> LastRegistered(h, id).value in h && LastRegistered(h, id).value.id == id
    ensures LastRegistered(h, id).None? <==> forall i :: 0 <= i < |h| ==> h[i].id != id
  {
    if h != [] {
      LastRegisteredFound(h[..|h| - 1], id);
    }
  }

  /** The map answers every lookup with the last registration of that id
      (last write wins). */
  lemma {:induction false} MapOfIsLast(h: seq<CVTheme>, id: string)
    ensures id in MapOf(h) <==> LastRegistered(h, id).Some?
    ensures id in MapOf(h) ==> MapOf(h)[id] == LastRegistered(h, id).value
  {
    if h != [] {
      MapOfIsLast(h[..|h| - 1], id);
    }
  }

  /** A registration at position `i` that no later call overrides is what
      the map holds for its id. */
  lemma {:induction false} LaterCallsDecide(h: seq<CVTheme>, i: nat)
    requires i < |h|
    requires forall j :: i < j < |h| ==> h[j].id != h[i].id
    ensures h[i].id in MapOf(h) && MapOf(h)[h[i].id] == h[i]
  {
    if i < |h| - 1 {
      LaterCallsDecide(h[..|h| - 1], i);
    }
  }

  /** Registering one more theme: the new order and map. */
  lemma RegisterStep(h: seq<CVTheme>, t: CVTheme)
    ensures FirstOrder(Ids(h + [t]))
      == if t.id in FirstOrder(Ids(h)) then FirstOrder(Ids(h)) else FirstOrder(Ids(h)) + [t.id]
    ensures MapOf(h + [t]) == MapOf(h)[t.id := t]
  {
    assert (h + [t])[..|h|] == h;
    assert Ids(h + [t])[..|h|] == Ids(h);
  }

  /** Registering one more theme changes the answer for its id only. */
  lemma LastRegisteredStep(h: seq<CVTheme>, t: CVTheme)
    ensures forall b :: LastRegistered(h + [t], b) == if b == t.id then Some(t) else LastRegistered(h, b)
  {
    assert (h + [t])[..|h|] == h;
  }

  /** The registered ids are exactly the keys of the map. */
  lemma KeysAreIds(h: seq<CVTheme>)
    ensures forall k :: k in FirstOrder(Ids(h)) <==> k in MapOf(h)
  {
    FirstOrderMembers(Ids(h));
    MapOfKeys(h);
  }

  /** Registering an id that is already present does not change how many
      themes there are. */
  lemma OverwriteKeepsCount(h: seq<CVTheme>, t: CVTheme)
    requires t.id in Ids(h)
    ensures |FirstOrder(Ids(h + [t]))| == |FirstOrder(Ids(h))|
  {
    FirstOrderMembers(Ids(h));
    RegisterStep(h, t);
  }

  /** A new id goes to the end. */
  lemma NewIdAppends(h: seq<CVTheme>, t: CVTheme)
    requires t.id !in Ids(h)
    ensures FirstOrder(Ids(h + [t])) == FirstOrder(Ids(h)) + [t.id]
  {
    FirstOrderMembers(Ids(h));
    RegisterStep(h, t);
  }

  lemma {:induction false} FirstIndexAppend(ks: seq<string>, x: string, k: string)
    requires k in ks
    ensures FirstIndex(ks + [x], k) == FirstIndex(ks, k)
  {
    if ks[0] != k {
      assert (ks + [x])[1..] == ks[1..] + [x];
      FirstIndexAppend(ks[1..], x, k);
    }
  }

  lemma {:induction false} FirstIndexNew(ks: seq<string>, k: string)
    requires k !in ks
    ensures FirstIndex(ks + [k], k) == |ks|
  {
    if ks != [] {
      assert (ks + [k])[1..] == ks[1..] + [k];
      FirstIndexNew(ks[1..], k);
    }
  }

  /** The ids come out in the order of their first registration. */
  lemma {:induction false} FirstOrderIsFirstOccurrence(ks: seq<string>)
    ensures forall i, j :: 0 <= i < j < |FirstOrder(ks)| ==>
              FirstOrder(ks)[i] in ks && FirstOrder(ks)[j] in ks
              && FirstIndex(ks, FirstOrder(ks)[i]) < FirstIndex(ks, FirstOrder(ks)[j])
  {
    FirstOrderMembers(ks);
    if ks != [] {
      var p := ks[..|ks| - 1];
      var x := ks[|ks| - 1];
      assert ks == p + [x];
      FirstOrderIsFirstOccurrence(p);
      FirstOrderMembers(p);
      var rp := FirstOrder(p);
      forall k | k in rp
        ensures FirstIndex(ks, k) == FirstIndex(p, k)
      {
        FirstIndexAppend(p, x, k);
      }
      if x !in rp {
        FirstIndexNew(p, x);
      }
    }
  }

  /** The registry. `history` is the ghost record of every `registerTheme`
      call so far; the map itself is `ids` (its key order) and `themes`. */
  class Registry {
    var ids: seq<string>
    var themes: map<string, CVTheme>
    ghost var history: seq<CVTheme>

    ghost predicate Valid()
      reads this
    {
      ids == FirstOrder(Ids(history)) && themes == MapOf(history)
    }

    /** `new Map()`. */
    constructor()
      ensures Valid() && history == [] && ids == [] && themes == map[]
    {
      ids := [];
      themes := map[];
      history := [];
    }

    /** `registerTheme`: `set(theme.id, theme)`. The theme is reachable
        under its id, every other id answers as before, and an id already
        present keeps its place. */
    method RegisterTheme(theme: CVTheme)
      requires Valid()
      modifies this
      ensures Valid() && history == old(history) + [theme]
      ensures themes == old(themes)[theme.id := theme]
      ensures ids == if theme.id in old(themes) then old(ids) else old(ids) + [theme.id]
      ensures GetTheme(theme.id) == Some(theme)
      ensures forall b :: b != theme.id ==> GetTheme(b) == old(GetTheme(b))
    {
      RegisterStep(history, theme);
      KeysAreIds(history);
      LastRegisteredStep(history, theme);
      MapOfIsLast(history, theme.id);
      if theme.id !in themes {
        ids := ids + [theme.id];
      }
      themes := themes[theme.id := theme];
      history := history + [theme];
    }

    /** `getTheme`: the theme most recently registered under `id`, if any. */
    function GetTheme(id: string): (r: Option<CVTheme>)
      requires Valid()
      reads this
      ensures r == LastRegistered(history, id)
    {
      MapOfIsLast(history, id);
      if id in themes then Some(themes[id]) else None
    }

    /** `hasTheme`: exactly when `getTheme` finds something. */
    function HasTheme(id: string): (b: bool)
      requires Valid()
      reads this
      ensures b <==> GetTheme(id).Some?
      ensures b <==> exists i :: 0 <= i < |history| && history[i].id == id
    {
      MapOfIsLast(history, id);
      LastRegisteredFound(history, id);
      id in themes
    }

    /** `getAllThemes`: `Array.from(values())`, one theme per registered id
        in first-registration order, each the last one registered under it. */
    method GetAllThemes() returns (all: seq<CVTheme>)
      requires Valid()
      ensures |all| == |ids|
      ensures forall i :: 0 <= i < |all| ==> ids[i] in themes && all[i] == themes[ids[i]]
      ensures forall i :: 0 <= i < |all| ==> Some(all[i]) == LastRegistered(history, ids[i])
    {
      KeysAreIds(history);
      all := [];
      var i := 0;
      while i < |ids|
        invariant 0 <= i <= |ids| && |all| == i
        invariant forall j :: 0 <= j < i ==> ids[j] in themes && all[j] == themes[ids[j]]
      {
        assert ids[i] in themes;
        all := all + [themes[ids[i]]];
        i := i + 1;
      }
      forall i | 0 <= i < |all|
        ensures Some(all[i]) == LastRegistered(history, ids[i])
      {
        MapOfIsLast(history, ids[i]);
      }
    }
  }
}
