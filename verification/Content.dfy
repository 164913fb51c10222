/** What one revision of a blueprint may hold, and the check that its chains of followers end. */
module Content {

  import opened Wrappers
  import Text
  import opened Geometry

  datatype Placement = Placement(edge: nat, alongMm: real, offMm: real, edgeLenMm: real, depthMm: real, facingDeg: real)

  datatype Follow = Follow(item: string, gapMm: real, inside: bool)

  datatype Item = Item(id: string, placement: Placement, sizeAlongMm: real, sizeAcrossMm: real, follows: Option<Follow>,
                       properties: seq<(string, string)>, typeProperties: seq<(string, string)>, excluded: bool)

  datatype Door = Door(id: string, edge: nat, alongMm: real, edgeLenMm: real, widthMm: real)

  datatype Revised = Revised(coarse: seq<Point>, fine: seq<Point>, items: seq<Item>, doors: seq<Door>)

  const MAX_ITEMS: nat := 5000
  const MAX_DOORS: nat := 200
  const MAX_OUTLINE_POINTS: nat := 2000
  const MAX_PROPERTIES: nat := 2000

  /** Why a revision is refused. */
  datatype Refusal =
    | FewCorners | LongOutline | ManyDoors | DoorOffOutline(door: string) | ManyItems
    | BlankItemId | RepeatedItemId(item: string) | ItemOffOutline(item: string) | FlatAtCapture(item: string)
    | NegativeSize(item: string) | FollowsItself(item: string) | FollowsNothing(item: string)
    | ManyProperties(item: string) | FollowLoop(item: string)

  // ---------------------------------------------------------------- the declarative rules

  predicate OutlineOk(c: Revised) {
    3 <= |c.coarse| <= MAX_OUTLINE_POINTS && |c.fine| <= MAX_OUTLINE_POINTS
  }

  predicate DoorsOk(c: Revised) {
    |c.doors| <= MAX_DOORS && forall k :: 0 <= k < |c.doors| ==> c.doors[k].edge < |c.coarse|
  }

  predicate IdsOk(items: seq<Item>) {
    && (forall k :: 0 <= k < |items| ==> !Text.Blank(items[k].id))
    && (forall j, k :: 0 <= j < k < |items| ==> items[j].id != items[k].id)
  }

  predicate HasItem(items: seq<Item>, id: string) {
    exists k :: 0 <= k < |items| && items[k].id == id
  }

  predicate ItemOk(c: Revised, item: Item) {
    && item.placement.edge < |c.coarse|
    && item.placement.edgeLenMm > 0.0 && item.placement.depthMm > 0.0
    && item.sizeAlongMm >= 0.0 && item.sizeAcrossMm >= 0.0
    && (item.follows.Some? ==> item.follows.value.item != item.id && HasItem(c.items, item.follows.value.item))
    && |item.properties| <= MAX_PROPERTIES && |item.typeProperties| <= MAX_PROPERTIES
  }

  /** Everything checked before the chains of followers are. */
  predicate ShapeOk(c: Revised) {
    && OutlineOk(c) && DoorsOk(c)
    && |c.items| <= MAX_ITEMS && IdsOk(c.items)
    && forall k :: 0 <= k < |c.items| ==> ItemOk(c, c.items[k])
  }

  /** Who follows whom. */
  function Follows(items: seq<Item>): map<string, string> {
    if items == [] then map[]
    else
      var last := items[|items| - 1];
      var rest := Follows(items[..|items| - 1]);
      if last.follows.Some? then rest[last.id := last.follows.value.item] else rest
  }

  /** The item n hops along the chain from `at`, if the chain is that long. */
  function Hop(follows: map<string, string>, at: string, n: nat): Option<string> {
    if n == 0 then Some(at)
    else
      var before := Hop(follows, at, n - 1);
      if before.Some? && before.value in follows then Some(follows[before.value]) else None
  }

  ghost predicate ReachesItself(follows: map<string, string>, at: string) {
    exists n: nat :: n >= 1 && Hop(follows, at, n) == Some(at)
  }

  /** Item i follows item j. */
  predicate FollowsNext(items: seq<Item>, i: nat, j: nat)
    requires i < |items| && j < |items|
  {
    items[i].follows.Some? && items[i].follows.value.item == items[j].id
  }

  /** Places of items, each following the next. */
  ghost predicate IsChain(items: seq<Item>, walk: seq<nat>) {
    && walk != []
    && (forall k :: 0 <= k < |walk| ==> walk[k] < |items|)
    && (forall k :: 0 <= k < |walk| - 1 ==> FollowsNext(items, walk[k], walk[k + 1]))
  }

  /** A chain that comes back to where it began. */
  ghost predicate IsLoop(items: seq<Item>, walk: seq<nat>) {
    IsChain(items, walk) && |walk| >= 2 && walk[|walk| - 1] == walk[0]
  }

  ghost predicate OnLoop(items: seq<Item>, id: string) {
    exists walk :: IsLoop(items, walk) && items[walk[0]].id == id
  }

  ghost predicate HasLoop(c: Revised) {
    exists walk :: IsLoop(c.items, walk)
  }

  ghost predicate ContentOk(c: Revised) {
    ShapeOk(c) && !HasLoop(c)
  }

  // ---------------------------------------------------------------- chains

  /** Two walks end to end. */
  lemma {:induction false} HopComposes(follows: map<string, string>, at: string, i: nat, j: nat)
    ensures Hop(follows, at, i).None? ==> Hop(follows, at, i + j).None?
    ensures Hop(follows, at, i).Some? ==> Hop(follows, at, i + j) == Hop(follows, Hop(follows, at, i).value, j)
  {
    if j > 0 {
      HopComposes(follows, at, i, j - 1);
      assert i + j - 1 == i + (j - 1);
    }
  }

  /** The items a walk of n hops visits, start and end included. */
  function Visited(follows: map<string, string>, at: string, n: nat): (s: seq<string>)
    requires Hop(follows, at, n).Some?
    ensures |s| == n + 1
    ensures forall k :: 0 <= k <= n ==> Hop(follows, at, k) == Some(s[k])
  {
    if n == 0 then [at] else Visited(follows, at, n - 1) + [Hop(follows, at, n).value]
  }

  /** A list longer than a set it is drawn from holds some element twice. */
  lemma {:induction false} Pigeonhole<T>(s: seq<T>, pool: set<T>) returns (i: nat, j: nat)
    requires forall k :: 0 <= k < |s| ==> s[k] in pool
    requires |s| > |pool|
    ensures i < j < |s| && s[i] == s[j]
    decreases |s|
  {
    var last := s[|s| - 1];
    var rest := s[..|s| - 1];
    if last in rest {
      i :| 0 <= i < |rest| && rest[i] == last;
      j := |s| - 1;
    } else {
      i, j := Pigeonhole(rest, pool - {last});
    }
  }

  lemma {:induction false} HopStaysInside(follows: map<string, string>, pool: set<string>, at: string, n: nat)
    requires at in pool && forall x :: x in follows ==> follows[x] in pool
    ensures Hop(follows, at, n).Some? ==> Hop(follows, at, n).value in pool
  {
    if n > 0 {
      HopStaysInside(follows, pool, at, n - 1);
    }
  }

  /** A chain as long as the pool comes back to somewhere it has been. */
  lemma LongChainLoops(follows: map<string, string>, pool: set<string>, at: string, n: nat) returns (x: string)
    requires at in pool && forall y :: y in follows ==> follows[y] in pool
    requires n >= |pool| && Hop(follows, at, n).Some?
    ensures x in pool && ReachesItself(follows, x)
  {
    var s := Visited(follows, at, n);
    forall k | 0 <= k < |s|
      ensures s[k] in pool
    {
      HopStaysInside(follows, pool, at, k);
    }
    var i, j := Pigeonhole(s, pool);
    x := s[i];
    HopComposes(follows, at, i, j - i);
    assert Hop(follows, x, j - i) == Some(x);
  }

  /** An item that reaches itself does so within as many hops as there are items that follow. */
  lemma {:induction false} ShortestReturn(follows: map<string, string>, at: string, n: nat) returns (k: nat)
    requires n >= 1 && Hop(follows, at, n) == Some(at)
    ensures 1 <= k <= |follows| && Hop(follows, at, k) == Some(at)
    decreases n
  {
    if n <= |follows| {
      k := n;
    } else {
      var s := Visited(follows, at, n);
      var visited := s[..n];
      forall m | 0 <= m < n
        ensures visited[m] in follows.Keys
      {
        assert Hop(follows, at, m + 1) == Some(s[m + 1]);
        assert Hop(follows, at, m) == Some(s[m]);
      }
      var i, j := Pigeonhole(visited, follows.Keys);
      // Cut the detour between the two visits.
      HopComposes(follows, at, i, n - j);
      HopComposes(follows, at, j, n - j);
      assert j + (n - j) == n;
      k := ShortestReturn(follows, at, i + (n - j));
    }
  }

  lemma {:induction false} FollowsFacts(items: seq<Item>)
    ensures |Follows(items)| <= |items|
    ensures forall x :: x in Follows(items) ==>
              exists k :: 0 <= k < |items| && items[k].id == x && items[k].follows.Some?
                          && Follows(items)[x] == items[k].follows.value.item
  {
    if items != [] {
      var rest := items[..|items| - 1];
      FollowsFacts(rest);
      forall x | x in Follows(items)
        ensures exists k :: 0 <= k < |items| && items[k].id == x && items[k].follows.Some?
                            && Follows(items)[x] == items[k].follows.value.item
      {
        var last := items[|items| - 1];
        if !(last.follows.Some? && x == last.id) {
          var k :| 0 <= k < |rest| && rest[k].id == x && rest[k].follows.Some?
                   && Follows(rest)[x] == rest[k].follows.value.item;
          assert items[k] == rest[k];
        }
      }
    }
  }

  /** With distinct ids the map is the items: it has an entry for every follower, and what it says is what that
    * item says. */
  lemma {:induction false} FollowsIsItems(items: seq<Item>, k: nat)
    requires k < |items| && forall i, j :: 0 <= i < j < |items| ==> items[i].id != items[j].id
    ensures items[k].id in Follows(items) <==> items[k].follows.Some?
    ensures items[k].follows.Some? ==> Follows(items)[items[k].id] == items[k].follows.value.item
  {
    var n := |items| - 1;
    if k < n {
      assert items[..n][k] == items[k];
      FollowsIsItems(items[..n], k);
    } else {
      FollowsFacts(items[..n]);
    }
  }

  /** A chain of items is a chain of hops. */
  lemma {:induction false} ChainHops(items: seq<Item>, walk: seq<nat>, k: nat)
    requires forall i, j :: 0 <= i < j < |items| ==> items[i].id != items[j].id
    requires IsChain(items, walk) && k < |walk|
    ensures Hop(Follows(items), items[walk[0]].id, k) == Some(items[walk[k]].id)
  {
    hide Follows;
    if k > 0 {
      ChainHops(items, walk, k - 1);
      assert FollowsNext(items, walk[k - 1], walk[k]);
      FollowsIsItems(items, walk[k - 1]);
    }
  }

  lemma HopHasItem(items: seq<Item>, at: string, k: nat) returns (place: nat)
    requires Hop(Follows(items), at, k + 1).Some?
    ensures Hop(Follows(items), at, k).Some?
    ensures place < |items| && items[place].id == Hop(Follows(items), at, k).value && items[place].follows.Some?
    ensures items[place].follows.value.item == Hop(Follows(items), at, k + 1).value
  {
    FollowsFacts(items);
    hide Follows;
    var here := Hop(Follows(items), at, k).value;
    place :| 0 <= place < |items| && items[place].id == here && items[place].follows.Some?
             && Follows(items)[here] == items[place].follows.value.item;
  }

  /** Hops that return to their start are a loop of items. */
  lemma HopsAreLoop(items: seq<Item>, at: string, n: nat) returns (walk: seq<nat>)
    requires n >= 1 && Hop(Follows(items), at, n) == Some(at)
    ensures IsLoop(items, walk) && |walk| == n + 1 && items[walk[0]].id == at
  {
    var s := Visited(Follows(items), at, n);
    StartOfWalk(Follows(items), at);
    hide Follows, Hop;
    walk := [];
    for k := 0 to n
      invariant |walk| == k
      invariant forall j :: 0 <= j < k ==> walk[j] < |items| && items[walk[j]].id == s[j] && items[walk[j]].follows.Some?
                                           && items[walk[j]].follows.value.item == s[j + 1]
    {
      var place := HopHasItem(items, at, k);
      walk := walk + [place];
    }
    walk := walk + [walk[0]];
  }

  /** An item reaches itself in the map exactly when it is on a loop of items. */
  lemma ReachingIsLooping(items: seq<Item>, id: string)
    requires forall i, j :: 0 <= i < j < |items| ==> items[i].id != items[j].id
    ensures ReachesItself(Follows(items), id) <==> OnLoop(items, id)
  {
    hide Follows, Hop;
    if ReachesItself(Follows(items), id) {
      var n: nat :| n >= 1 && Hop(Follows(items), id, n) == Some(id);
      var walk := HopsAreLoop(items, id, n);
    }
    if OnLoop(items, id) {
      var walk :| IsLoop(items, walk) && items[walk[0]].id == id;
      ChainHops(items, walk, |walk| - 1);
    }
  }

  function Ids(items: seq<Item>): (ids: set<string>)
    ensures forall k :: 0 <= k < |items| ==> items[k].id in ids
    ensures forall x :: x in ids ==> exists k :: 0 <= k < |items| && items[k].id == x
    ensures |ids| <= |items|
  {
    if items == [] then {}
    else
      assert forall k :: 0 <= k < |items| - 1 ==> items[k] == items[..|items| - 1][k];
      Ids(items[..|items| - 1]) + {items[|items| - 1].id}
  }

  /** In an accepted revision no chain of followers is longer than there are items. */
  lemma AcceptedChainsEnd(c: Revised, walk: seq<nat>)
    requires ContentOk(c) && IsChain(c.items, walk)
    ensures |walk| <= |c.items|
  {
    hide Follows, ShapeOk, IsChain;
    if |walk| > |c.items| {
      var i, j := RepeatedPlace(c.items, walk);
      RoundIsLoop(c.items, walk, i, j);
    }
  }

  lemma RepeatedPlace(items: seq<Item>, walk: seq<nat>) returns (i: nat, j: nat)
    requires IsChain(items, walk) && |walk| > |items|
    ensures i < j < |walk| && walk[i] == walk[j]
  {
    hide FollowsNext;
    i, j := PlacesRepeat(walk, |items|);
  }

  function Below(n: nat): (places: set<nat>)
    ensures |places| == n && forall k: nat :: k in places <==> k < n
  {
    if n == 0 then {} else Below(n - 1) + {n - 1}
  }

  /** More places than there are: one comes twice. */
  lemma PlacesRepeat(walk: seq<nat>, n: nat) returns (i: nat, j: nat)
    requires |walk| > n && forall k :: 0 <= k < |walk| ==> walk[k] < n
    ensures i < j < |walk| && walk[i] == walk[j]
  {
    i, j := Pigeonhole(walk, Below(n));
  }

  lemma RoundIsLoop(items: seq<Item>, walk: seq<nat>, i: nat, j: nat)
    requires IsChain(items, walk) && i < j < |walk| && walk[i] == walk[j]
    ensures IsLoop(items, walk[i..j + 1])
  {
    hide FollowsNext;
    var round := walk[i..j + 1];
    forall k | 0 <= k < |round| - 1
      ensures FollowsNext(items, round[k], round[k + 1])
    {
      assert FollowsNext(items, walk[i + k], walk[i + k + 1]);
    }
  }

  /** The bounded walk loses no loop: an item that reaches itself does so within |items| hops. */
  lemma HopsAreShort(c: Revised, at: string)
    requires ReachesItself(Follows(c.items), at)
    ensures exists n: nat :: 1 <= n <= |c.items| && Hop(Follows(c.items), at, n) == Some(at)
  {
    var n: nat :| n >= 1 && Hop(Follows(c.items), at, n) == Some(at);
    FollowsFacts(c.items);
    var k := ShortestReturn(Follows(c.items), at, n);
  }

  /** An item on a loop is on one of no more hops than there are items. */
  lemma LoopsAreShort(c: Revised, id: string) returns (walk: seq<nat>)
    requires IdsOk(c.items) && OnLoop(c.items, id)
    ensures IsLoop(c.items, walk) && c.items[walk[0]].id == id && |walk| <= |c.items| + 1
  {
    hide Follows, Hop, IsLoop;
    ReachingIsLooping(c.items, id);
    HopsAreShort(c, id);
    var n: nat :| 1 <= n <= |c.items| && Hop(Follows(c.items), id, n) == Some(id);
    walk := HopsAreLoop(c.items, id, n);
  }

  lemma LoopHasFirst(c: Revised)
    requires IdsOk(c.items)
    ensures HasLoop(c) <==> exists k :: 0 <= k < |c.items| && ReachesItself(Follows(c.items), c.items[k].id)
  {
    hide ReachesItself, Follows;
    if walk :| IsLoop(c.items, walk) {
      assert OnLoop(c.items, c.items[walk[0]].id);
      ReachingIsLooping(c.items, c.items[walk[0]].id);
    }
    if k :| 0 <= k < |c.items| && ReachesItself(Follows(c.items), c.items[k].id) {
      ReachingIsLooping(c.items, c.items[k].id);
    }
  }

  /** Two items that follow each other are refused, and for nothing else. */
  lemma LoopOfTwoIsRefused()
    ensures var at := Placement(0, 0.0, 0.0, 1.0, 1.0, 0.0);
            var a := Item("a", at, 1.0, 1.0, Some(Follow("b", 0.0, false)), [], [], false);
            var b := Item("b", at, 1.0, 1.0, Some(Follow("a", 0.0, false)), [], [], false);
            var c := Revised([Point(0.0, 0.0), Point(1.0, 0.0), Point(0.0, 1.0)], [], [a, b], []);
            ShapeOk(c) && HasLoop(c) && !ContentOk(c)
  {
    var at := Placement(0, 0.0, 0.0, 1.0, 1.0, 0.0);
    var a := Item("a", at, 1.0, 1.0, Some(Follow("b", 0.0, false)), [], [], false);
    var b := Item("b", at, 1.0, 1.0, Some(Follow("a", 0.0, false)), [], [], false);
    var c := Revised([Point(0.0, 0.0), Point(1.0, 0.0), Point(0.0, 1.0)], [], [a, b], []);
    assert c.items[0].id == "a" && c.items[1].id == "b";
    assert Text.TrimStart("a") == "a" && Text.TrimStart("b") == "b";
    assert IsLoop(c.items, [0, 1, 0]);
    assert ItemOk(c, c.items[0]) && ItemOk(c, c.items[1]);
  }

  // ---------------------------------------------------------------- the checks as they run

  method CheckOutlineAndDoors(c: Revised) returns (refusal: Option<Refusal>)
    ensures refusal.None? <==> OutlineOk(c) && DoorsOk(c)
    ensures refusal.Some? ==> !refusal.value.FollowLoop?
  {
    if |c.coarse| < 3 {
      return Some(FewCorners);
    }
    if |c.coarse| > MAX_OUTLINE_POINTS || |c.fine| > MAX_OUTLINE_POINTS {
      return Some(LongOutline);
    }
    if |c.doors| > MAX_DOORS {
      return Some(ManyDoors);
    }
    for k := 0 to |c.doors|
      invariant forall j :: 0 <= j < k ==> c.doors[j].edge < |c.coarse|
    {
      if c.doors[k].edge >= |c.coarse| {
        return Some(DoorOffOutline(c.doors[k].id));
      }
    }
    return None;
  }

  method CheckIds(items: seq<Item>) returns (refusal: Option<Refusal>, seen: set<string>)
    ensures refusal.None? <==> IdsOk(items)
    ensures refusal.Some? ==> !refusal.value.FollowLoop?
    ensures refusal.None? ==> forall id :: id in seen <==> HasItem(items, id)
  {
    hide Text.Blank;
    seen := {};
    for k := 0 to |items|
      invariant IdsOk(items[..k])
      invariant forall id :: id in seen <==> exists j :: 0 <= j < k && items[j].id == id
    {
      if Text.Blank(items[k].id) {
        return Some(BlankItemId), seen;
      }
      if items[k].id in seen {
        return Some(RepeatedItemId(items[k].id)), seen;
      }
      seen := seen + {items[k].id};
    }
    assert items[..|items|] == items;
    return None, seen;
  }

  method CheckItem(c: Revised, item: Item, seen: set<string>) returns (refusal: Option<Refusal>)
    requires forall id :: id in seen <==> HasItem(c.items, id)
    ensures refusal.None? <==> ItemOk(c, item)
    ensures refusal.Some? ==> !refusal.value.FollowLoop?
  {
    hide HasItem;
    var p := item.placement;
    if p.edge >= |c.coarse| {
      return Some(ItemOffOutline(item.id));
    }
    if p.edgeLenMm <= 0.0 || p.depthMm <= 0.0 {
      return Some(FlatAtCapture(item.id));
    }
    if item.sizeAlongMm < 0.0 || item.sizeAcrossMm < 0.0 {
      return Some(NegativeSize(item.id));
    }
    if item.follows.Some? {
      if item.follows.value.item == item.id {
        return Some(FollowsItself(item.id));
      }
      if item.follows.value.item !in seen {
        return Some(FollowsNothing(item.id));
      }
    }
    if |item.properties| > MAX_PROPERTIES || |item.typeProperties| > MAX_PROPERTIES {
      return Some(ManyProperties(item.id));
    }
    return None;
  }

  lemma MapIsItems(c: Revised, id: string)
    requires IdsOk(c.items)
    ensures ReachesItself(Follows(c.items), id) <==> OnLoop(c.items, id)
  {
    hide ReachesItself, Follows, OnLoop;
    ReachingIsLooping(c.items, id);
  }

  /** The bounded walk from every item: |items| + 1 steps, stopping where the chain ends. */
  method CheckFollowers(c: Revised) returns (refusal: Option<Refusal>)
    ensures refusal.Some? ==> refusal.value.FollowLoop? && ReachesItself(Follows(c.items), refusal.value.item)
    ensures refusal.None? ==> forall k :: 0 <= k < |c.items| ==> !ReachesItself(Follows(c.items), c.items[k].id)
    ensures IdsOk(c.items) ==> (refusal.None? <==> !HasLoop(c))
    ensures IdsOk(c.items) && refusal.Some? ==> OnLoop(c.items, refusal.value.item)
  {
    hide Hop, Follows, IdsOk, OnLoop, HasLoop;
    if IdsOk(c.items) {
      LoopHasFirst(c);
      forall id ensures ReachesItself(Follows(c.items), id) <==> OnLoop(c.items, id) { MapIsItems(c, id); }
    }
    var follows := Follows(c.items);
    for k := 0 to |c.items|
      invariant forall j :: 0 <= j < k ==> !ReachesItself(follows, c.items[j].id)
    {
      var id := c.items[k].id;
      var at := id;
      var n := 0;
      StartOfWalk(follows, id);
      while n <= |c.items|
        invariant n <= |c.items| + 1
        invariant Hop(follows, id, n) == Some(at)
        invariant forall m: nat :: 1 <= m <= n ==> Hop(follows, id, m) != Some(id)
      {
        NextOfWalk(follows, id, n);
        if at !in follows {
          break;
        }
        at := follows[at];
        if at == id {
          return Some(FollowLoop(id));
        }
        n := n + 1;
      }
      if ReachesItself(follows, id) {
        HopsAreShort(c, id);
        if n <= |c.items| {
          WalkHasEnded(follows, id, n);
        }
      }
    }
    return None;
  }

  lemma StartOfWalk(follows: map<string, string>, at: string)
    ensures Hop(follows, at, 0) == Some(at)
  {
  }

  lemma NextOfWalk(follows: map<string, string>, at: string, n: nat)
    requires Hop(follows, at, n).Some?
    ensures var here := Hop(follows, at, n).value;
            Hop(follows, at, n + 1) == if here in follows then Some(follows[here]) else None
  {
  }

  lemma WalkHasEnded(follows: map<string, string>, at: string, n: nat)
    requires Hop(follows, at, n + 1).None?
    ensures forall m: nat :: m > n ==> Hop(follows, at, m).None?
  {
    forall m: nat | m > n
      ensures Hop(follows, at, m).None?
    {
      HopComposes(follows, at, n + 1, m - (n + 1));
    }
  }

  /** `validate_content`. A revision is accepted iff it follows every rule; once the other rules hold it
    * is refused for its followers iff some items follow each other round. */
  method ValidateContent(c: Revised) returns (refusal: Option<Refusal>)
    ensures refusal.None? <==> ContentOk(c)
    ensures refusal.Some? && refusal.value.FollowLoop? <==> ShapeOk(c) && HasLoop(c)
    ensures refusal.Some? && refusal.value.FollowLoop? ==> OnLoop(c.items, refusal.value.item)
  {
    hide OutlineOk, DoorsOk, IdsOk, ItemOk, HasLoop, ReachesItself, OnLoop, Follows;
    refusal := CheckOutlineAndDoors(c);
    if refusal.Some? {
      return;
    }
    if |c.items| > MAX_ITEMS {
      return Some(ManyItems);
    }
    var seen;
    refusal, seen := CheckIds(c.items);
    if refusal.Some? {
      return;
    }
    for k := 0 to |c.items|
      invariant refusal.None?
      invariant forall j :: 0 <= j < k ==> ItemOk(c, c.items[j])
    {
      refusal := CheckItem(c, c.items[k], seen);
      if refusal.Some? {
        return;
      }
    }
    refusal := CheckFollowers(c);
  }
}
