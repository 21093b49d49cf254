/**
 * The controller's menu tree and the resolution of a menu path such as
 * "Informatie > Ingangen" to the identifier of the menu page it names.
 */
module NavigationTree {
  import opened Wrappers
  import opened Errors

  datatype NavigationItem = NavigationItem(id: string, name: string, items: seq<NavigationItem>)

  /** The tree the controller sends in reply to a login; the root's own id is never a page. */
  datatype Navigation = Navigation(id: string, items: seq<NavigationItem>)

  // ---------------------------------------------------------------------
  // Splitting a path on " > "
  // ---------------------------------------------------------------------

  const Separator: string := " > "

  predicate SeparatorAt(s: string, i: int) {
    0 <= i && i + 3 <= |s| && s[i] == ' ' && s[i + 1] == '>' && s[i + 2] == ' '
  }

  ghost predicate NoSeparator(s: string) {
    forall i :: !SeparatorAt(s, i)
  }

  /** The first occurrence of the separator at or after `from`. */
  function FindSeparator(s: string, from: nat): (r: Option<nat>)
    ensures r.Some? ==> from <= r.value && SeparatorAt(s, r.value)
    ensures r.Some? ==> forall j :: from <= j < r.value ==> !SeparatorAt(s, j)
    ensures r.None? ==> forall j :: from <= j ==> !SeparatorAt(s, j)
    decreases |s| - from
  {
    if from + 3 > |s| then None
    else if SeparatorAt(s, from) then Some(from)
    else FindSeparator(s, from + 1)
  }

  /** The parts joined back together with the separator between them. */
  function Join(parts: seq<string>): string
    requires |parts| >= 1
  {
    if |parts| == 1 then parts[0] else parts[0] + Separator + Join(parts[1..])
  }

  /** Every part but the last ends at the first separator after its start: no
      separator begins inside it, even one overlapping the separator that
      follows it. */
  predicate CutsAtFirst(parts: seq<string>) {
    forall k, i :: 0 <= k < |parts| - 1 && 0 <= i < |parts[k]| ==> !SeparatorAt(parts[k] + Separator, i)
  }

  /** The text before the first separator, followed by the separator, holds no
      earlier separator. */
  lemma FirstPartCut(s: string, k: nat)
    requires FindSeparator(s, 0) == Some(k)
    ensures forall i :: 0 <= i < k ==> !SeparatorAt(s[..k] + Separator, i)
  {
    assert s[..k] + Separator == s[..k + 3];
    forall i | 0 <= i < k
      ensures !SeparatorAt(s[..k] + Separator, i)
    {
      assert !SeparatorAt(s, i);
    }
  }

  /** Splitting on the separator, left to right, as strings.Split does: the
      parts never contain the separator, joining them gives the path back,
      there is always at least one part, and each part ends at the first
      separator after its start. */
  function Split(s: string): (parts: seq<string>)
    ensures |parts| >= 1
    ensures forall k :: 0 <= k < |parts| ==> NoSeparator(parts[k])
    ensures Join(parts) == s
    ensures CutsAtFirst(parts)
    decreases |s|
  {
    match FindSeparator(s, 0)
    case None => [s]
    case Some(k) =>
      var rest := Split(s[k + 3..]);
      assert s == s[..k] + Separator + s[k + 3..];
      forall i ensures !SeparatorAt(s[..k], i) {
        if SeparatorAt(s[..k], i) {
          assert SeparatorAt(s, i);
        }
      }
      FirstPartCut(s, k);
      var parts := [s[..k]] + rest;
      forall j, i | 0 <= j < |parts| - 1 && 0 <= i < |parts[j]|
        ensures !SeparatorAt(parts[j] + Separator, i)
      {
        if j > 0 {
          assert parts[j] == rest[j - 1];
        }
      }
      parts
  }

  /** The three properties pin the split down: any list of parts with them is
      the one Split gives. */
  lemma {:induction false} SplitUnique(s: string, parts: seq<string>)
    requires |parts| >= 1 && Join(parts) == s
    requires forall k :: 0 <= k < |parts| ==> NoSeparator(parts[k])
    requires CutsAtFirst(parts)
    ensures Split(s) == parts
    decreases |parts|
  {
    var p := parts[0];
    if |parts| == 1 {
      assert NoSeparator(s);
    } else {
      var tail := parts[1..];
      assert s == (p + Separator) + Join(tail);
      assert SeparatorAt(s, |p|);
      forall i | 0 <= i < |p|
        ensures !SeparatorAt(s, i)
      {
        assert !SeparatorAt(p + Separator, i);
        assert s[i] == (p + Separator)[i] && s[i + 1] == (p + Separator)[i + 1] && s[i + 2] == (p + Separator)[i + 2];
      }
      assert FindSeparator(s, 0) == Some(|p|);
      assert s[..|p|] == p && s[|p| + 3..] == Join(tail);
      forall k | 0 <= k < |tail|
        ensures NoSeparator(tail[k])
      {
        assert tail[k] == parts[k + 1];
      }
      forall j, i | 0 <= j < |tail| - 1 && 0 <= i < |tail[j]|
        ensures !SeparatorAt(tail[j] + Separator, i)
      {
        assert tail[j] == parts[j + 1];
      }
      SplitUnique(Join(tail), tail);
      assert parts == [p] + tail;
    }
  }

  /** Where separators overlap, the first one wins: "a > > b" splits into
      "a" and "> b", not into "a >" and "b". */
  lemma SplitOverlapping()
    ensures Split("a > > b") == ["a", "> b"]
  {
    var parts := ["a", "> b"];
    assert Join(parts) == "a" + Separator + "> b" == "a > > b";
    assert NoSeparator("a");
    assert !SeparatorAt("> b", 0);
    assert NoSeparator("> b");
    assert !SeparatorAt("a" + Separator, 0);
    SplitUnique("a > > b", parts);
  }

  // ---------------------------------------------------------------------
  // Walking the tree
  // ---------------------------------------------------------------------

  /** The index of the first item, in order, whose name equals `name`. */
  function FirstNamed(items: seq<NavigationItem>, name: string, from: nat := 0): (r: Option<nat>)
    requires from <= |items|
    ensures r.Some? ==> from <= r.value < |items| && items[r.value].name == name
    ensures r.Some? ==> forall j :: from <= j < r.value ==> items[j].name != name
    ensures r.None? ==> forall j :: from <= j < |items| ==> items[j].name != name
    decreases |items| - from
  {
    if from == |items| then None
    else if items[from].name == name then Some(from)
    else FirstNamed(items, name, from + 1)
  }

  /** The children to search after having matched `chain`: the top-level items
      at first, then the children of the last node matched. */
  function Level(items: seq<NavigationItem>, chain: seq<NavigationItem>): seq<NavigationItem> {
    if chain == [] then items else chain[|chain| - 1].items
  }

  /** The nodes matched by the segments, one per segment, or the error for the
      first segment that matches no child. */
  function Walk(items: seq<NavigationItem>, segments: seq<string>): (r: Result<seq<NavigationItem>, ClientError>)
    ensures r.Success? ==> |r.value| == |segments|
    decreases |segments|
  {
    if segments == [] then Success([])
    else
      match FirstNamed(items, segments[0])
      case None => Failure(ItemDoesNotExist(segments[0]))
      case Some(i) =>
        match Walk(items[i].items, segments[1..])
        case Success(rest) => Success([items[i]] + rest)
        case Failure(e) => Failure(e)
  }

  /** The identifier a menu path resolves to: that of the node matched by its last segment. */
  function Resolve(navigation: Navigation, itemPath: string): Result<string, ClientError> {
    match Walk(navigation.items, Split(itemPath))
    case Success(chain) => Success(chain[|chain| - 1].id)
    case Failure(e) => Failure(e)
  }

  /** Resolution in a fixed tree, as a function of the path alone. */
  function Resolver(navigation: Navigation): string -> Result<string, ClientError> {
    (itemPath: string) => Resolve(navigation, itemPath)
  }

  /** Step k of a walk: node k is the first child named by segment k among
      the children reached by nodes 0..k-1. */
  ghost predicate WalkStep(items: seq<NavigationItem>, segments: seq<string>, chain: seq<NavigationItem>, k: nat)
    requires k < |segments| && |chain| == |segments|
  {
    var level := Level(items, chain[..k]);
    FirstNamed(level, segments[k]).Some? && chain[k] == level[FirstNamed(level, segments[k]).value]
  }

  /** An independent description of a successful walk, one step per segment. */
  ghost predicate IsWalk(items: seq<NavigationItem>, segments: seq<string>, chain: seq<NavigationItem>) {
    && |chain| == |segments|
    && forall k :: 0 <= k < |segments| ==> WalkStep(items, segments, chain, k)
  }

  lemma WalkStepPrefix(items: seq<NavigationItem>, segments: seq<string>, chain: seq<NavigationItem>, n: nat, k: nat)
    requires |chain| == |segments| && k < n <= |segments|
    ensures WalkStep(items, segments, chain, k) == WalkStep(items, segments[..n], chain[..n], k)
  {
    assert chain[..n][..k] == chain[..k];
  }

  /** Extending the segments by one extends the walk by one step. */
  lemma {:induction false} WalkSnoc(items: seq<NavigationItem>, segments: seq<string>, s: string)
    ensures Walk(items, segments + [s]) ==
      match Walk(items, segments)
      case Failure(e) => Failure(e)
      case Success(chain) =>
        var level := Level(items, chain);
        match FirstNamed(level, s)
        case None => Failure(ItemDoesNotExist(s))
        case Some(i) => Success(chain + [level[i]])
    decreases |segments|
  {
    if segments == [] {
      assert segments + [s] == [s];
      assert [s][1..] == [];
      match FirstNamed(items, s)
      case None =>
      case Some(i) =>
        assert Walk(items[i].items, []) == Success([]);
        assert [items[i]] + [] == [] + [items[i]];
    } else {
      var segs := segments + [s];
      assert segs[0] == segments[0] && segs[1..] == segments[1..] + [s];
      match FirstNamed(items, segments[0])
      case None =>
      case Some(i) =>
        WalkSnoc(items[i].items, segments[1..], s);
        match Walk(items[i].items, segments[1..])
        case Failure(e) =>
        case Success(rest) =>
          assert Level(items, [items[i]] + rest) == Level(items[i].items, rest);
          match FirstNamed(Level(items[i].items, rest), s)
          case None =>
          case Some(j) =>
            assert [items[i]] + (rest + [Level(items[i].items, rest)[j]]) == [items[i]] + rest + [Level(items[i].items, rest)[j]];
    }
  }

  /** A successful walk is the walk described by IsWalk, and every chain IsWalk
      accepts is what the walk returns. */
  lemma {:induction false} WalkIsWalk(items: seq<NavigationItem>, segments: seq<string>, chain: seq<NavigationItem>)
    ensures Walk(items, segments) == Success(chain) <==> IsWalk(items, segments, chain)
    decreases |segments|
  {
    if segments != [] {
      var n := |segments|;
      var init := segments[..n - 1];
      assert segments == init + [segments[n - 1]];
      WalkSnoc(items, init, segments[n - 1]);
      if |chain| == n {
        var prefix := chain[..n - 1];
        WalkIsWalk(items, init, prefix);
        forall k | 0 <= k < n - 1 {
          WalkStepPrefix(items, segments, chain, n - 1, k);
        }
        assert chain == prefix + [chain[n - 1]];
        if IsWalk(items, segments, chain) {
          assert WalkStep(items, segments, chain, n - 1);
          assert IsWalk(items, init, prefix) by {
            forall k | 0 <= k < n - 1 ensures WalkStep(items, init, prefix, k) {
              assert WalkStep(items, segments, chain, k);
            }
          }
        }
        if IsWalk(items, init, prefix) && WalkStep(items, segments, chain, n - 1) {
          forall k | 0 <= k < n ensures WalkStep(items, segments, chain, k) {
            if k < n - 1 {
              assert WalkStep(items, init, prefix, k);
            }
          }
        }
      }
    }
  }

  /** If a walk succeeds, so does the walk of every prefix of its segments,
      and it matches the corresponding prefix of the nodes. */
  lemma {:induction false} WalkPrefix(items: seq<NavigationItem>, segments: seq<string>, k: nat)
    requires Walk(items, segments).Success?
    requires k <= |segments|
    ensures Walk(items, segments[..k]) == Success(Walk(items, segments).value[..k])
    decreases |segments|
  {
    if k < |segments| {
      var n := |segments|;
      var init := segments[..n - 1];
      assert segments == init + [segments[n - 1]];
      WalkSnoc(items, init, segments[n - 1]);
      var chain := Walk(items, segments).value;
      assert Walk(items, init).Success? && Walk(items, init).value == chain[..n - 1];
      WalkPrefix(items, init, k);
      assert init[..k] == segments[..k];
      assert chain[..n - 1][..k] == chain[..k];
    } else {
      assert segments[..k] == segments;
      assert Walk(items, segments).value[..k] == Walk(items, segments).value;
    }
  }

  /** A walk that fails names the first segment that matched no child: every
      segment before it was matched, and none of the children reached matched it. */
  lemma {:induction false} WalkFailureNamesSegment(items: seq<NavigationItem>, segments: seq<string>) returns (k: nat)
    requires Walk(items, segments).Failure?
    ensures k < |segments|
    ensures Walk(items, segments[..k]).Success?
    ensures FirstNamed(Level(items, Walk(items, segments[..k]).value), segments[k]).None?
    ensures Walk(items, segments).error == ItemDoesNotExist(segments[k])
    decreases |segments|
  {
    var n := |segments|;
    var init := segments[..n - 1];
    assert segments == init + [segments[n - 1]];
    WalkSnoc(items, init, segments[n - 1]);
    if Walk(items, init).Failure? {
      k := WalkFailureNamesSegment(items, init);
      assert init[..k] == segments[..k];
    } else {
      k := n - 1;
    }
  }

  /** `node` is `root` or lies somewhere below it. */
  ghost predicate InSubtree(node: NavigationItem, root: NavigationItem)
    decreases root
  {
    node == root || exists c :: c in root.items && InSubtree(node, c)
  }

  /** Every node of a successful walk lies below each node matched before it:
      the node a path resolves to is in the subtree of the node each of its
      prefixes resolves to. */
  lemma {:induction false} WalkDescends(items: seq<NavigationItem>, segments: seq<string>, i: nat, j: nat)
    requires Walk(items, segments).Success?
    requires i <= j < |segments|
    ensures InSubtree(Walk(items, segments).value[j], Walk(items, segments).value[i])
    decreases |segments|
  {
    var i0 := FirstNamed(items, segments[0]).value;
    var rest := Walk(items[i0].items, segments[1..]).value;
    var chain := Walk(items, segments).value;
    assert chain == [items[i0]] + rest;
    if i == j {
    } else if i == 0 {
      WalkDescends(items[i0].items, segments[1..], 0, j - 1);
      assert rest[0] in items[i0].items;
    } else {
      WalkDescends(items[i0].items, segments[1..], i - 1, j - 1);
    }
  }

  /** A resolved identifier belongs to an item of the tree, lying below one of
      the top-level items and named by the last segment of the path; it is
      never taken from the root. */
  lemma ResolvedIsItem(navigation: Navigation, itemPath: string) returns (top: NavigationItem, node: NavigationItem)
    requires Resolve(navigation, itemPath).Success?
    ensures top in navigation.items && InSubtree(node, top)
    ensures node.id == Resolve(navigation, itemPath).value
    ensures node.name == Split(itemPath)[|Split(itemPath)| - 1]
  {
    var segments := Split(itemPath);
    var chain := Walk(navigation.items, segments).value;
    WalkIsWalk(navigation.items, segments, chain);
    top, node := chain[0], chain[|chain| - 1];
    WalkDescends(navigation.items, segments, 0, |chain| - 1);
    assert WalkStep(navigation.items, segments, chain, |chain| - 1);
    assert Level(navigation.items, chain[..0]) == navigation.items;
  }

  /** The empty path resolves exactly when some top-level item has an empty name. */
  lemma EmptyPath(navigation: Navigation)
    ensures Resolve(navigation, "").Success? <==> exists i :: 0 <= i < |navigation.items| && navigation.items[i].name == ""
  {
    assert Split("") == [""];
    assert [""][1..] == [];
  }

  /** Go's get_navigation_item_id in the Rust client, as written: a stub that
      accepts every path and answers the empty identifier. */
  function GetNavigationItemIdStub(navigation: Navigation, itemPath: string): (r: Result<string, ClientError>)
    ensures r == Success("")
  {
    Success("")
  }

  /** The menu tree of the controller's navigation tests. */
  function TestNavigation(): Navigation {
    Navigation("0x45cd88", [
      NavigationItem("0x45df90", "Informatie", [
        NavigationItem("0x45df90", "Temperaturen", []),
        NavigationItem("0x455968", "Ingangen", [])]),
      NavigationItem("0x450798", "Instelling", []),
      NavigationItem("0x3dc420", "Klokprogramma", []),
      NavigationItem("0x45c7b0", "Toegang: Gebruiker", [])])
  }

  lemma SplitSingle(s: string)
    requires NoSeparator(s)
    ensures Split(s) == [s]
  {
    assert FindSeparator(s, 0).None?;
  }

  lemma SplitTopLevelPath()
    ensures Split("Informatie") == ["Informatie"]
  {
    var top := "Informatie";
    assert FindSeparator(top, 8) == None;
    assert FindSeparator(top, 7) == None;
    assert FindSeparator(top, 6) == None;
    assert FindSeparator(top, 5) == None;
    assert FindSeparator(top, 4) == None;
    assert FindSeparator(top, 3) == None;
    assert FindSeparator(top, 2) == None;
    assert FindSeparator(top, 1) == None;
    assert FindSeparator(top, 0) == None;
  }

  lemma SplitIngangen()
    ensures Split("Ingangen") == ["Ingangen"]
  {
    var last := "Ingangen";
    assert FindSeparator(last, 6) == None;
    assert FindSeparator(last, 5) == None;
    assert FindSeparator(last, 4) == None;
    assert FindSeparator(last, 3) == None;
    assert FindSeparator(last, 2) == None;
    assert FindSeparator(last, 1) == None;
    assert FindSeparator(last, 0) == None;
  }

  lemma NestedPathSeparator()
    ensures FindSeparator("Informatie > Ingangen", 0) == Some(10)
  {
    var path := "Informatie > Ingangen";
    assert FindSeparator(path, 10) == Some(10);
    assert FindSeparator(path, 9) == Some(10);
    assert FindSeparator(path, 8) == Some(10);
    assert FindSeparator(path, 7) == Some(10);
    assert FindSeparator(path, 6) == Some(10);
    assert FindSeparator(path, 5) == Some(10);
    assert FindSeparator(path, 4) == Some(10);
    assert FindSeparator(path, 3) == Some(10);
    assert FindSeparator(path, 2) == Some(10);
    assert FindSeparator(path, 1) == Some(10);
  }

  lemma SplitNestedPath()
    ensures Split("Informatie > Ingangen") == ["Informatie", "Ingangen"]
  {
    var path := "Informatie > Ingangen";
    NestedPathSeparator();
    SplitIngangen();
    assert path[13..] == "Ingangen" && path[..10] == "Informatie";
  }

  lemma WalkCons(items: seq<NavigationItem>, s: string, rest: seq<string>, i: nat, tail: seq<NavigationItem>)
    requires FirstNamed(items, s) == Some(i)
    requires Walk(items[i].items, rest) == Success(tail)
    ensures Walk(items, [s] + rest) == Success([items[i]] + tail)
  {
    assert ([s] + rest)[0] == s && ([s] + rest)[1..] == rest;
  }

  /** Test expectation: a top-level page resolves to its own identifier. */
  lemma TestTopLevelResolves()
    ensures Resolve(TestNavigation(), "Informatie") == Success("0x45df90")
  {
    var nav := TestNavigation();
    var top := "Informatie";
    SplitTopLevelPath();
    assert FirstNamed(nav.items, top) == Some(0);
    WalkCons(nav.items, top, [], 0, []);
    assert [top] + [] == [top] && [nav.items[0]] + [] == [nav.items[0]];
  }

  /** Test expectation: a page one level down resolves to the nested item's identifier. */
  lemma TestNestedResolves()
    ensures Resolve(TestNavigation(), "Informatie > Ingangen") == Success("0x455968")
  {
    var nav := TestNavigation();
    var top, last := "Informatie", "Ingangen";
    SplitNestedPath();
    var inner := nav.items[0].items;
    assert FirstNamed(inner, last) == FirstNamed(inner, last, 1) == Some(1);
    WalkCons(inner, last, [], 1, []);
    assert [last] + [] == [last] && [inner[1]] + [] == [inner[1]];
    assert FirstNamed(nav.items, top) == Some(0);
    WalkCons(nav.items, top, [last], 0, [inner[1]]);
    assert [top] + [last] == [top, last];
  }

  /** The stub disagrees with the resolution the client relies on. */
  lemma StubLosesPageId()
    ensures GetNavigationItemIdStub(TestNavigation(), "Informatie > Ingangen") != Resolve(TestNavigation(), "Informatie > Ingangen")
  {
    TestNestedResolves();
  }

  /** Once a walk has failed, walking further segments fails with the same error. */
  lemma {:induction false} WalkFailureExtends(items: seq<NavigationItem>, segments: seq<string>, more: seq<string>)
    requires Walk(items, segments).Failure?
    ensures Walk(items, segments + more) == Walk(items, segments)
    decreases |more|
  {
    if more == [] {
      assert segments + more == segments;
    } else {
      var n := |more|;
      WalkFailureExtends(items, segments, more[..n - 1]);
      WalkSnoc(items, segments + more[..n - 1], more[n - 1]);
      assert segments + more == (segments + more[..n - 1]) + [more[n - 1]];
    }
  }

  /** Go's GetNavigationItemID: walk the path's segments, for each one scanning
      the current children for the first with that name and descending into it. */
  method GetNavigationItemID(navigation: Navigation, itemPath: string) returns (r: Result<string, ClientError>)
    ensures r == Resolve(navigation, itemPath)
  {
    var itemPathParts := Split(itemPath);
    var items := navigation.items;
    var navigationID := "";
    ghost var chain: seq<NavigationItem> := [];
    var k := 0;
    while k < |itemPathParts|
      invariant 0 <= k <= |itemPathParts|
      invariant Walk(navigation.items, itemPathParts[..k]) == Success(chain)
      invariant items == Level(navigation.items, chain)
      invariant k > 0 ==> navigationID == chain[k - 1].id
    {
      var p := itemPathParts[k];
      assert itemPathParts[..k + 1] == itemPathParts[..k] + [p];
      WalkSnoc(navigation.items, itemPathParts[..k], p);
      ghost var level := items;
      var found := false;
      var j := 0;
      while j < |items|
        invariant 0 <= j <= |items| && items == level
        invariant FirstNamed(level, p) == FirstNamed(level, p, j)
      {
        if p == items[j].name {
          found := true;
          navigationID := items[j].id;
          chain := chain + [items[j]];
          items := items[j].items;
          break;
        }
        j := j + 1;
      }
      if !found {
        WalkFailureExtends(navigation.items, itemPathParts[..k + 1], itemPathParts[k + 1..]);
        assert itemPathParts[..k + 1] + itemPathParts[k + 1..] == itemPathParts;
        r := Failure(ItemDoesNotExist(p));
        return;
      }
      k := k + 1;
    }
    assert itemPathParts[..k] == itemPathParts;
    r := Success(navigationID);
  }
}
