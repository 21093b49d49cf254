/**
 * Grouping the sample configurations by the menu page they are read from, so
 * that each page is requested once.
 */
module Grouping {
  import opened Model

  /** The configurations read from page `nav`, in input order. */
  function Filter(configs: seq<ConfigSample>, nav: string): (r: seq<ConfigSample>)
    ensures |r| <= |configs|
    ensures forall c :: c in r <==> c in configs && c.navigation == nav
  {
    if configs == [] then []
    else
      var init := configs[..|configs| - 1];
      var c := configs[|configs| - 1];
      assert forall x :: x in configs <==> x in init || x == c by {
        assert configs == init + [c];
      }
      Filter(init, nav) + (if c.navigation == nav then [c] else [])
  }

  /** Every page some configuration is read from. */
  function Navigations(configs: seq<ConfigSample>): set<string> {
    set c | c in configs :: c.navigation
  }

  lemma FilterNonEmpty(configs: seq<ConfigSample>, nav: string)
    ensures Filter(configs, nav) != [] ==> nav in Navigations(configs)
  {
    var f := Filter(configs, nav);
    if f != [] {
      assert f[0] in configs && f[0].navigation == nav;
    }
  }

  lemma NavigationsSnoc(configs: seq<ConfigSample>, c: ConfigSample)
    ensures Navigations(configs + [c]) == Navigations(configs) + {c.navigation}
  {
    assert forall x :: x in configs + [c] <==> x in configs || x == c;
  }

  lemma FilterSnoc(configs: seq<ConfigSample>, c: ConfigSample, nav: string)
    ensures Filter(configs + [c], nav) == Filter(configs, nav) + (if c.navigation == nav then [c] else [])
  {
    assert (configs + [c])[..|configs|] == configs;
  }

  /** Filtering distributes over concatenation, so each group keeps the
      relative order of its configurations in the input. */
  lemma {:induction false} FilterAppend(a: seq<ConfigSample>, b: seq<ConfigSample>, nav: string)
    ensures Filter(a + b, nav) == Filter(a, nav) + Filter(b, nav)
    decreases |b|
  {
    if b == [] {
      assert a + b == a;
    } else {
      var init := b[..|b| - 1];
      assert (a + b)[..|a + b| - 1] == a + init;
      FilterAppend(a, init, nav);
    }
  }

  /** The grouping the function is meant to perform (the Go loop it carries as a
      comment): each configuration is appended to the group of its page. */
  method GroupSampleConfigsPerNavigation(configs: seq<ConfigSample>) returns (groups: map<string, seq<ConfigSample>>)
    ensures groups.Keys == Navigations(configs)
    ensures forall nav :: nav in groups ==> groups[nav] == Filter(configs, nav)
  {
    groups := map[];
    for i := 0 to |configs|
      invariant groups.Keys == Navigations(configs[..i])
      invariant forall nav :: nav in groups ==> groups[nav] == Filter(configs[..i], nav)
    {
      var sc := configs[i];
      ghost var done := configs[..i];
      assert configs[..i + 1] == done + [sc];
      NavigationsSnoc(done, sc);
      forall nav ensures Filter(done + [sc], nav) == Filter(done, nav) + (if sc.navigation == nav then [sc] else []) {
        FilterSnoc(done, sc, nav);
      }
      if sc.navigation !in groups {
        FilterNonEmpty(done, sc.navigation);
        groups := groups[sc.navigation := []];
      }
      groups := groups[sc.navigation := groups[sc.navigation] + [sc]];
    }
    assert configs[..|configs|] == configs;
  }

  /** The grouping as a value: one group per page, holding that page's
      configurations in input order. */
  function Grouped(configs: seq<ConfigSample>): map<string, seq<ConfigSample>> {
    map nav | nav in Navigations(configs) :: Filter(configs, nav)
  }

  /** The grouping is determined by its keys and groups. */
  lemma GroupedIs(configs: seq<ConfigSample>, groups: map<string, seq<ConfigSample>>)
    requires groups.Keys == Navigations(configs)
    requires forall nav :: nav in groups ==> groups[nav] == Filter(configs, nav)
    ensures groups == Grouped(configs)
  {
  }

  /** Every configuration lands in the group of its own page. */
  lemma GroupsCoverEveryConfig(configs: seq<ConfigSample>, i: nat)
    requires i < |configs|
    ensures configs[i].navigation in Navigations(configs)
    ensures configs[i] in Filter(configs, configs[i].navigation)
  {
  }

  /** The function as written: it returns an empty map. */
  function GroupSampleConfigsStub(configs: seq<ConfigSample>): (groups: map<string, seq<ConfigSample>>)
    ensures forall nav :: nav !in groups
  {
    map[]
  }

  /** With the stub, a non-empty configuration list yields no group at all,
      so the first configuration, which belongs to its page's group, is never read. */
  lemma StubLosesConfigs(configs: seq<ConfigSample>)
    requires configs != []
    ensures configs[0] in Filter(configs, configs[0].navigation)
    ensures configs[0].navigation !in GroupSampleConfigsStub(configs)
  {
  }

  /** `order` lists every page of `pages` exactly once: one iteration order of the map of groups. */
  predicate Enumerates(order: seq<string>, pages: set<string>) {
    && (forall k :: 0 <= k < |order| ==> order[k] in pages)
    && (forall nav :: nav in pages ==> nav in order)
    && (forall j, k :: 0 <= j < k < |order| ==> order[j] != order[k])
  }

  /** An enumeration lists as many pages as there are. */
  lemma {:induction false} EnumeratesCount(order: seq<string>, pages: set<string>)
    requires Enumerates(order, pages)
    ensures |order| == |pages|
    decreases |order|
  {
    if order == [] {
      assert forall nav :: nav !in pages;
      assert pages == {};
    } else {
      var last := order[|order| - 1];
      var init := order[..|order| - 1];
      var rest := pages - {last};
      forall k | 0 <= k < |init|
        ensures init[k] in rest
      {
        assert init[k] == order[k];
      }
      forall nav | nav in rest
        ensures nav in init
      {
        var k :| 0 <= k < |order| && order[k] == nav;
        assert init[k] == nav;
      }
      EnumeratesCount(init, rest);
    }
  }

  /** The groups listed in `order`, one after another: the order in which the
      configurations are read when the groups are visited in that order. */
  function Gathered(groups: map<string, seq<ConfigSample>>, order: seq<string>): seq<ConfigSample>
    requires forall k :: 0 <= k < |order| ==> order[k] in groups
  {
    if order == [] then [] else Gathered(groups, order[..|order| - 1]) + groups[order[|order| - 1]]
  }

  /** The configurations of each page in `order`, one page after another. */
  function FilterAll(configs: seq<ConfigSample>, order: seq<string>): (r: seq<ConfigSample>)
    ensures forall c :: c in r <==> c in configs && c.navigation in order
  {
    if order == [] then []
    else
      var init, nav := order[..|order| - 1], order[|order| - 1];
      assert forall x :: x in order <==> x in init || x == nav by {
        assert order == init + [nav];
      }
      FilterAll(configs, init) + Filter(configs, nav)
  }

  lemma {:induction false} GatheredIsFilterAll(configs: seq<ConfigSample>, groups: map<string, seq<ConfigSample>>, order: seq<string>)
    requires forall k :: 0 <= k < |order| ==> order[k] in groups
    requires forall nav :: nav in groups ==> groups[nav] == Filter(configs, nav)
    ensures Gathered(groups, order) == FilterAll(configs, order)
    decreases |order|
  {
    if order != [] {
      GatheredIsFilterAll(configs, groups, order[..|order| - 1]);
    }
  }

  /** The step of FilterAllSnoc: one more page, not among the earlier ones
      when it is the appended configuration's page. */
  lemma FilterAllSnocStep(configs: seq<ConfigSample>, c: ConfigSample, init: seq<string>, nav: string)
    requires multiset(FilterAll(configs + [c], init))
          == multiset(FilterAll(configs, init)) + (if c.navigation in init then multiset{c} else multiset{})
    requires c.navigation in init ==> c.navigation != nav
    ensures multiset(FilterAll(configs + [c], init + [nav]))
         == multiset(FilterAll(configs, init)) + multiset(Filter(configs, nav))
            + (if c.navigation in init + [nav] then multiset{c} else multiset{})
  {
    var order := init + [nav];
    assert order[..|order| - 1] == init && order[|order| - 1] == nav;
    assert c.navigation in order <==> c.navigation in init || c.navigation == nav;
    FilterSnoc(configs, c, nav);
  }

  /** Appending a configuration adds it once to the pages in `order` when its
      own page is among them, and not at all otherwise. */
  lemma {:induction false} FilterAllSnoc(configs: seq<ConfigSample>, c: ConfigSample, order: seq<string>)
    requires forall j, k :: 0 <= j < k < |order| ==> order[j] != order[k]
    ensures multiset(FilterAll(configs + [c], order))
         == multiset(FilterAll(configs, order)) + (if c.navigation in order then multiset{c} else multiset{})
    decreases |order|
  {
    if order != [] {
      var init := order[..|order| - 1];
      var nav := order[|order| - 1];
      assert order == init + [nav];
      assert c.navigation in init ==> c.navigation != nav;
      FilterAllSnoc(configs, c, init);
      FilterAllSnocStep(configs, c, init, nav);
    }
  }

  /** Without configurations no page contributes any. */
  lemma {:induction false} FilterAllNone(configs: seq<ConfigSample>, order: seq<string>)
    requires configs == []
    ensures FilterAll(configs, order) == []
    decreases |order|
  {
    if order != [] {
      FilterAllNone(configs, order[..|order| - 1]);
    }
  }

  /** Visiting every page once reads every configuration exactly once. */
  lemma {:induction false} FilterAllPermutes(configs: seq<ConfigSample>, order: seq<string>)
    requires forall j, k :: 0 <= j < k < |order| ==> order[j] != order[k]
    requires forall c :: c in configs ==> c.navigation in order
    ensures multiset(FilterAll(configs, order)) == multiset(configs)
    decreases |configs|
  {
    if configs != [] {
      var init := configs[..|configs| - 1];
      var c := configs[|configs| - 1];
      assert configs == init + [c];
      FilterAllPermutes(init, order);
      FilterAllSnoc(init, c, order);
    } else {
      FilterAllNone(configs, order);
    }
  }

  /** The intended grouping, visited in any iteration order of its keys, lists
      every configuration exactly once. */
  lemma GroupsPermuteConfigs(configs: seq<ConfigSample>, groups: map<string, seq<ConfigSample>>, order: seq<string>)
    requires groups.Keys == Navigations(configs)
    requires forall nav :: nav in groups ==> groups[nav] == Filter(configs, nav)
    requires Enumerates(order, groups.Keys)
    ensures multiset(Gathered(groups, order)) == multiset(configs)
  {
    GatheredIsFilterAll(configs, groups, order);
    FilterAllPermutes(configs, order);
  }
}
