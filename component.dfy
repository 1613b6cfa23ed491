/** The suggestion logic of the SearchWithModifiers component
    (src/ui/components/SearchWithModifiers/component.ts): the `query`
    accessors, the `hintList` grouping of the active token's hints by section,
    and `showModifierList`. */
module Component {

  import opened Wrappers
  import opened Seqs
  import opened Types
  import opened Tokens

  /** An example query offered while the query is blank (`label` is
      `labelText` here, as in `Hint`). */
  datatype SampleQuery = SampleQuery(query: string, labelText: string)

  /** The `HintList` interface: one titled section of the suggestion list. */
  datatype HintGroup = HintGroup(section: string, list: seq<Hint>)

  /** The title of the section of example queries. */
  const HowToSearch: string := "How to Search"

  /** The section limit when `args.limit` is absent or zero. */
  const DefaultLimit: int := 32

  /** The per-section cut applied when there is more than one section. */
  const SharedCut: int := 5

  /** `args.limit || 32`. */
  function Limit(argsLimit: Option<int>): int {
    if argsLimit.None? || argsLimit.value == 0 then DefaultLimit else argsLimit.value
  }

  /** The most hints a section keeps: its first always, more while it is
      shorter than the limit. */
  function Quota(limit: int): int {
    if limit < 1 then 1 else limit
  }

  /** The dictionary key a hint is filed under: its own non-empty `section`,
      else the token's section title; an absent title becomes the property
      key "undefined". */
  function SectionOf(h: Hint, title: Option<string>): string {
    if h.Modifier? && h.section.Some? && h.section.value != "" then h.section.value
    else if title.Some? then title.value
    else "undefined"
  }

  /** The hints filed under `s`, in their original order. */
  function InSection(hs: seq<Hint>, title: Option<string>, s: string): seq<Hint>
    decreases |hs|
  {
    if hs == [] then []
    else InSection(hs[..|hs| - 1], title, s)
         + (if SectionOf(hs[|hs| - 1], title) == s then [hs[|hs| - 1]] else [])
  }

  lemma {:induction false} InSectionSpec(hs: seq<Hint>, title: Option<string>, s: string)
    ensures forall x :: x in InSection(hs, title, s) <==> x in hs && SectionOf(x, title) == s
    decreases |hs|
  {
    if hs != [] {
      var init := hs[..|hs| - 1];
      InSectionSpec(init, title, s);
      assert hs == init + [hs[|hs| - 1]];
    }
  }

  /** The dictionary `reduce` builds, with its keys in insertion order (the
      order `Object.keys` reports them in). */
  datatype Grouping = Grouping(order: seq<string>, lists: map<string, seq<Hint>>)

  /** The `reduce` over the hints. */
  function Group(hs: seq<Hint>, title: Option<string>, limit: int): (g: Grouping)
    ensures forall s :: s in g.lists <==> s in g.order
    ensures NoDuplicates(g.order)
    decreases |hs|
  {
    if hs == [] then Grouping([], map[])
    else
      var g := Group(hs[..|hs| - 1], title, limit);
      var h := hs[|hs| - 1];
      var s := SectionOf(h, title);
      if s in g.lists then
        if |g.lists[s]| < limit then g.(lists := g.lists[s := g.lists[s] + [h]]) else g
      else Grouping(g.order + [s], g.lists[s := [h]])
  }

  /** Some hint filed under `a` comes before every hint filed under `b`. */
  predicate Before(hs: seq<Hint>, title: Option<string>, a: string, b: string) {
    exists p :: 0 <= p < |hs| && SectionOf(hs[p], title) == a &&
      forall q :: 0 <= q <= p ==> SectionOf(hs[q], title) != b
  }

  /** The sections of `order` come in the order their first hints do. */
  predicate FirstAppearance(hs: seq<Hint>, title: Option<string>, order: seq<string>) {
    forall i, j :: 0 <= i < j < |order| ==> Before(hs, title, order[i], order[j])
  }

  lemma BeforeExtend(hs: seq<Hint>, h: Hint, title: Option<string>, a: string, b: string)
    requires Before(hs, title, a, b)
    ensures Before(hs + [h], title, a, b)
  {
    var p :| 0 <= p < |hs| && SectionOf(hs[p], title) == a &&
      forall q :: 0 <= q <= p ==> SectionOf(hs[q], title) != b;
    assert forall q :: 0 <= q <= p ==> (hs + [h])[q] == hs[q];
  }

  /** `slice(0, n)` of a sequence grown by one element. */
  lemma TakeAppend(f: seq<Hint>, x: Hint, n: int)
    requires n >= 1
    ensures Take(f + [x], n) == if |f| < n then f + [x] else Take(f, n)
  {
    if |f| >= n {
      assert (f + [x])[..n] == f[..n];
    }
  }

  /** Filing one more hint extends its own section only. */
  lemma InSectionSnoc(init: seq<Hint>, h: Hint, title: Option<string>, t: string)
    ensures InSection(init + [h], title, t)
      == InSection(init, title, t) + (if SectionOf(h, title) == t then [h] else [])
  {
    assert (init + [h])[..|init|] == init;
  }

  /** A section exists exactly when some hint is filed under it. */
  lemma {:induction false} GroupKeys(hs: seq<Hint>, title: Option<string>, limit: int)
    ensures forall s :: s in Group(hs, title, limit).lists <==> InSection(hs, title, s) != []
    decreases |hs|
  {
    if hs != [] {
      var init := hs[..|hs| - 1];
      var h := hs[|hs| - 1];
      assert hs == init + [h];
      GroupKeys(init, title, limit);
      forall t ensures InSection(hs, title, t)
        == InSection(init, title, t) + (if SectionOf(h, title) == t then [h] else [])
      {
        InSectionSnoc(init, h, title, t);
      }
    }
  }

  /** Each section holds the first `Quota(limit)` of its hints, in their
      original order. */
  predicate QuotaKept(hs: seq<Hint>, title: Option<string>, limit: int, lists: map<string, seq<Hint>>) {
    forall s :: s in lists ==> lists[s] == Take(InSection(hs, title, s), Quota(limit))
  }

  lemma GroupListsStep(init: seq<Hint>, h: Hint, title: Option<string>, limit: int, t: string)
    requires QuotaKept(init, title, limit, Group(init, title, limit).lists)
    requires t in Group(init + [h], title, limit).lists
    ensures Group(init + [h], title, limit).lists[t] == Take(InSection(init + [h], title, t), Quota(limit))
  {
    var hs := init + [h];
    var s := SectionOf(h, title);
    assert hs[..|hs| - 1] == init;
    var g0 := Group(init, title, limit);
    InSectionSnoc(init, h, title, t);
    if t == s {
      GroupKeys(init, title, limit);
      if s in g0.lists {
        TakeAppend(InSection(init, title, s), h, Quota(limit));
      } else {
        assert InSection(init, title, s) == [];
      }
    }
  }

  lemma {:induction false} GroupLists(hs: seq<Hint>, title: Option<string>, limit: int)
    ensures QuotaKept(hs, title, limit, Group(hs, title, limit).lists)
    decreases |hs|
  {
    if hs != [] {
      var init := hs[..|hs| - 1];
      var h := hs[|hs| - 1];
      assert hs == init + [h];
      GroupLists(init, title, limit);
      forall t | t in Group(hs, title, limit).lists
        ensures Group(hs, title, limit).lists[t] == Take(InSection(hs, title, t), Quota(limit))
      {
        GroupListsStep(init, h, title, limit, t);
      }
    }
  }

  /** A section already present comes before one that is new. */
  lemma BeforeNew(init: seq<Hint>, h: Hint, title: Option<string>, a: string)
    requires InSection(init, title, a) != []
    requires InSection(init, title, SectionOf(h, title)) == []
    ensures Before(init + [h], title, a, SectionOf(h, title))
  {
    var s := SectionOf(h, title);
    var hs := init + [h];
    InSectionSpec(init, title, a);
    InSectionSpec(init, title, s);
    var x := InSection(init, title, a)[0];
    assert x in InSection(init, title, a);
    var p :| 0 <= p < |init| && init[p] == x;
    forall q | 0 <= q <= p
      ensures SectionOf(hs[q], title) != s
    {
      assert hs[q] == init[q] && init[q] in init;
    }
    assert SectionOf(hs[p], title) == a;
  }

  /** Filing one more hint keeps the sections in order of first appearance. */
  lemma GroupOrderStep(init: seq<Hint>, h: Hint, title: Option<string>, limit: int)
    requires FirstAppearance(init, title, Group(init, title, limit).order)
    ensures FirstAppearance(init + [h], title, Group(init + [h], title, limit).order)
  {
    var hs := init + [h];
    var s := SectionOf(h, title);
    assert hs[..|hs| - 1] == init;
    var g0 := Group(init, title, limit);
    var g := Group(hs, title, limit);
    assert g.order == g0.order || (s !in g0.lists && g.order == g0.order + [s]);
    forall i, j | 0 <= i < j < |g.order|
      ensures Before(hs, title, g.order[i], g.order[j])
    {
      assert g.order[i] == g0.order[i];
      if j < |g0.order| {
        assert g.order[j] == g0.order[j];
        BeforeExtend(init, h, title, g.order[i], g.order[j]);
      } else {
        GroupKeys(init, title, limit);
        BeforeNew(init, h, title, g.order[i]);
      }
    }
  }

  /** Sections come in order of first appearance. */
  lemma {:induction false} GroupOrder(hs: seq<Hint>, title: Option<string>, limit: int)
    ensures FirstAppearance(hs, title, Group(hs, title, limit).order)
    decreases |hs|
  {
    if hs != [] {
      var init := hs[..|hs| - 1];
      assert hs == init + [hs[|hs| - 1]];
      GroupOrder(init, title, limit);
      GroupOrderStep(init, hs[|hs| - 1], title, limit);
    }
  }

  /** The section lists in key order, each cut to five when there are
      several. */
  function Arrange(g: Grouping): (r: seq<HintGroup>)
    requires forall s :: s in g.order ==> s in g.lists
    ensures |r| == |g.order|
    ensures forall i :: 0 <= i < |r| ==> r[i].section == g.order[i]
    ensures |r| == 1 ==> r[0].list == g.lists[g.order[0]]
    ensures |r| > 1 ==> forall i :: 0 <= i < |r| ==> r[i].list == Take(g.lists[g.order[i]], SharedCut)
  {
    seq(|g.order|, i requires 0 <= i < |g.order| =>
      var list := g.lists[g.order[i]];
      HintGroup(g.order[i], if |g.order| > 1 then Take(list, SharedCut) else list))
  }

  /** The hint an example query offers. */
  function SampleHint(q: SampleQuery): Hint {
    Modifier(q.query, Some(q.labelText), Some(HowToSearch), true, false, true)
  }

  /** The section of example queries. */
  function Examples(samples: seq<SampleQuery>): (g: HintGroup)
    ensures g.section == HowToSearch && |g.list| == |samples|
    ensures forall i :: 0 <= i < |samples| ==> g.list[i] == SampleHint(samples[i])
  {
    HintGroup(HowToSearch, seq(|samples|, i requires 0 <= i < |samples| => SampleHint(samples[i])))
  }

  /** The suggestion list for a token's hints. */
  function Suggestions(hs: seq<Hint>, title: Option<string>, limit: int, blank: bool,
                       samples: seq<SampleQuery>): seq<HintGroup>
  {
    var groups := Arrange(Group(hs, title, limit));
    if blank then [Examples(samples)] + groups else groups
  }

  /** The sections are exactly those some hint is filed under. */
  lemma GroupSections(hs: seq<Hint>, title: Option<string>, limit: int)
    ensures forall s :: s in Group(hs, title, limit).order <==> exists h :: h in hs && SectionOf(h, title) == s
  {
    var g := Group(hs, title, limit);
    GroupKeys(hs, title, limit);
    forall s ensures s in g.order <==> exists h :: h in hs && SectionOf(h, title) == s {
      InSectionSpec(hs, title, s);
      if s in g.order {
        assert InSection(hs, title, s)[0] in InSection(hs, title, s);
      }
    }
  }

  /** How many hints a section shows out of `sections` sections. */
  function SectionCap(sections: int, limit: int): int {
    if sections > 1 && SharedCut < Quota(limit) then SharedCut else Quota(limit)
  }

  /** Entry `i` of the arranged sections shows section `order[i]` with its
      first `SectionCap` hints, at least one. */
  predicate Shown(hs: seq<Hint>, title: Option<string>, limit: int, order: seq<string>, i: int, e: HintGroup)
    requires 0 <= i < |order|
  {
    && e.section == order[i]
    && e.list != []
    && e.list == Take(InSection(hs, title, order[i]), SectionCap(|order|, limit))
  }

  lemma ArrangedLists(hs: seq<Hint>, title: Option<string>, limit: int)
    ensures var g := Group(hs, title, limit);
      var r := Arrange(g);
      |r| == |g.order| && forall i :: 0 <= i < |r| ==> Shown(hs, title, limit, g.order, i, r[i])
  {
    var g := Group(hs, title, limit);
    var r := Arrange(g);
    GroupKeys(hs, title, limit);
    GroupLists(hs, title, limit);
    forall i | 0 <= i < |r|
      ensures Shown(hs, title, limit, g.order, i, r[i])
    {
      var f := InSection(hs, title, g.order[i]);
      var cut := SectionCap(|g.order|, limit);
      assert g.lists[g.order[i]] == Take(f, Quota(limit));
      if |g.order| > 1 {
        assert r[i].list == Take(Take(f, Quota(limit)), SharedCut);
        assert |r[i].list| == |Take(f, cut)|;
      }
    }
  }

  /** Where the arranged sections sit in the suggestion list. */
  lemma SuggestionsLayout(hs: seq<Hint>, title: Option<string>, limit: int, blank: bool,
                          samples: seq<SampleQuery>)
    ensures var r := Suggestions(hs, title, limit, blank, samples);
      var k := if blank then 1 else 0;
      var groups := Arrange(Group(hs, title, limit));
      && |r| == k + |groups|
      && (blank ==> r[0] == Examples(samples))
      && r[k..] == groups
  {
    var groups := Arrange(Group(hs, title, limit));
    if blank {
      var r := [Examples(samples)] + groups;
      assert Suggestions(hs, title, limit, blank, samples) == r;
      assert r[1..] == groups;
    } else {
      assert Suggestions(hs, title, limit, blank, samples) == groups;
    }
  }

  /** The shape of the suggestion list: the example section first when the
      query is blank, then one section per distinct section of the hints in
      order of first appearance, each holding its first hints in their
      original order, at most `Quota(limit)` of them and at most five when
      there are several sections. */
  lemma SuggestionsSpec(hs: seq<Hint>, title: Option<string>, limit: int, blank: bool,
                        samples: seq<SampleQuery>)
    ensures var r := Suggestions(hs, title, limit, blank, samples);
      var k := if blank then 1 else 0;
      var order := Group(hs, title, limit).order;
      && |r| == k + |order|
      && (blank ==> r[0] == Examples(samples))
      && NoDuplicates(order)
      && (forall s :: s in order <==> exists h :: h in hs && SectionOf(h, title) == s)
      && FirstAppearance(hs, title, order)
      && |r[k..]| == |order|
      && (forall i :: 0 <= i < |order| ==> Shown(hs, title, limit, order, i, r[k..][i]))
  {
    SuggestionsLayout(hs, title, limit, blank, samples);
    GroupSections(hs, title, limit);
    GroupOrder(hs, title, limit);
    ArrangedLists(hs, title, limit);
  }

  class SearchWithModifiers {
    /** The token under the caret, if any. */
    var activeToken: Token?
    /** The last query typed into the box; empty until then. */
    var cachedQuery: string
    /** `args.query`, which the embedding template may leave out. */
    const argsQuery: Option<string>
    /** `args.limit`. */
    const argsLimit: Option<int>
    /** `sampleQueries`, which the component initialises to no examples. */
    const sampleQueries: seq<SampleQuery>

    constructor (argsQuery: Option<string>, argsLimit: Option<int>)
      ensures this.argsQuery == argsQuery && this.argsLimit == argsLimit
      ensures activeToken == null && cachedQuery == "" && sampleQueries == []
    {
      this.argsQuery := argsQuery;
      this.argsLimit := argsLimit;
      activeToken := null;
      cachedQuery := "";
      sampleQueries := [];
    }

    /** `query` getter: the typed query once there is one, else the argument. */
    function Query(): (r: Option<string>)
      reads this
      ensures cachedQuery != "" ==> r == Some(cachedQuery)
      ensures cachedQuery == "" ==> r == argsQuery
    {
      if cachedQuery != "" then Some(cachedQuery) else argsQuery
    }

    /** `query` setter: only the typed query changes. */
    method SetQuery(str: string)
      modifies this`cachedQuery
      ensures cachedQuery == str
      ensures str != "" ==> Query() == Some(str)
      ensures str == "" ==> Query() == argsQuery
    {
      cachedQuery := str;
    }

    /** `isQueryBlank`: the query is absent or empty. */
    predicate IsQueryBlank()
      reads this
    {
      Query().None? || Query().value == ""
    }

    /** The value `hintList` has: no suggestions without an active token, a
      TypeError when the token has no entry, else the token's hints arranged
      by section. */
    function HintListOf(u: Helpers): (r: Outcome<seq<HintGroup>>)
      reads this, activeToken
      ensures activeToken == null ==> r == Returns([])
      ensures activeToken != null ==> (r.ThrowsTypeError? <==> activeToken.Config().None?)
    {
      if activeToken == null then Returns([])
      else match activeToken.Hints(u)
        case ThrowsTypeError => ThrowsTypeError
        case Returns(hs) =>
          Returns(Suggestions(hs, activeToken.SectionTitle().value, Limit(argsLimit),
                              IsQueryBlank(), sampleQueries))
    }

    /** `hintList` getter: files the hints into a dictionary one by one, then
        arranges the sections. */
    method HintList(u: Helpers) returns (r: Outcome<seq<HintGroup>>)
      ensures r == HintListOf(u)
    {
      var token := activeToken;
      if token == null {
        return Returns([]);
      }
      var hints := token.Hints(u);
      if hints.ThrowsTypeError? {
        return ThrowsTypeError;
      }
      var hs := hints.value;
      var title := token.SectionTitle().value;
      var limit := Limit(argsLimit);
      var sum: map<string, seq<Hint>> := map[];
      var sections: seq<string> := [];
      for i := 0 to |hs|
        invariant Grouping(sections, sum) == Group(hs[..i], title, limit)
      {
        assert hs[..i + 1][..i] == hs[..i];
        var item := hs[i];
        var section := SectionOf(item, title);
        if section in sum {
          if |sum[section]| < limit {
            sum := sum[section := sum[section] + [item]];
          }
        } else {
          sum := sum[section := [item]];
          sections := sections + [section];
        }
      }
      assert hs[..|hs|] == hs;
      var hintList := Arrange(Grouping(sections, sum));
      if IsQueryBlank() {
        hintList := [Examples(sampleQueries)] + hintList;
      }
      return Returns(hintList);
    }

    /** `showModifierList`: there are suggestions and the active token's type
        is not `space`. */
    function ShowModifierList(u: Helpers): (r: Outcome<bool>)
      reads this, activeToken
      ensures r.ThrowsTypeError? <==> HintListOf(u).ThrowsTypeError?
    {
      match HintListOf(u)
      case ThrowsTypeError => ThrowsTypeError
      case Returns(list) =>
        if list == [] then Returns(false)
        else Returns(activeToken != null && activeToken.Type() != "space")
    }
  }

  /** The modifier list shows exactly for an active token with an entry whose
      type is not `space`, and only when it has hints or the query is blank. */
  lemma ShowModifierListSpec(c: SearchWithModifiers, u: Helpers)
    ensures c.ShowModifierList(u) == Returns(true) <==>
      && c.activeToken != null
      && c.activeToken.Config().Some?
      && c.activeToken.Type() != "space"
      && (c.IsQueryBlank() || c.activeToken.Hints(u).value != [])
    ensures c.activeToken == null ==> c.ShowModifierList(u) == Returns(false)
  {
    var t := c.activeToken;
    if t != null && t.Config().Some? {
      var hs := t.Hints(u).value;
      SuggestionsSpec(hs, t.SectionTitle().value, Limit(c.argsLimit), c.IsQueryBlank(), c.sampleQueries);
      if hs != [] {
        assert SectionOf(hs[0], t.SectionTitle().value) in Group(hs, t.SectionTitle().value, Limit(c.argsLimit)).order;
      }
    }
  }
}
