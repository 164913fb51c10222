/** What a client that read the document sends back unchanged: every stored record resolves to itself,
  * whatever the model now lists, because every room in it is named in full.
  */
module ResolvedAgain {

  import opened Wrappers
  import opened Text
  import opened Connections
  import opened RoomResolver

  /** What a stored reference looks like when a caller sends it back. */
  function AsInput(ref: RoomRef): RoomInput { RoomInput(ref.roomId, Some(ref.modelId)) }

  function CutAsInput(d: Disconnect): DisconnectInput { DisconnectInput(AsInput(d.a), AsInput(d.b)) }

  function Each<A, B>(xs: seq<A>, f: A -> B): (ys: seq<B>)
    ensures |ys| == |xs| && forall k :: 0 <= k < |xs| ==> ys[k] == f(xs[k])
  {
    seq(|xs|, k requires 0 <= k < |xs| => f(xs[k]))
  }

  function ZoneAsInput(z: OpenZone): ZoneInput {
    ZoneInput(z.id, z.name, Each(z.rooms, AsInput), Each(z.disconnects, CutAsInput),
              if z.hub.Some? then Some(AsInput(z.hub.value)) else None, z.note)
  }

  function LinkAsInput(l: VerticalLink): LinkInput { LinkInput(l.id, AsInput(l.a), AsInput(l.b), l.costFt, l.note) }

  function RouteAsInput(r: SavedRoute): RouteInput {
    RouteInput(r.id, r.name, AsInput(r.start), AsInput(r.end), r.startAt, r.endAt, r.routing, r.widthMm, r.heightMm, r.colour, r.note)
  }

  function StartAsInput(s: ReachStart): ReachStartInput { ReachStartInput(AsInput(s.room), s.at) }

  function ReachAsInput(r: SavedReach): ReachInput {
    ReachInput(r.id, r.name, Each(r.sources, StartAsInput), r.limitMm, r.spacingMm, r.measure, r.ignoreCuts, r.note)
  }

  function PassageAsInput(p: Passage): PassageInput {
    PassageInput(p.id, AsInput(p.a), AsInput(p.b), p.start, p.end, p.widthMm, p.heightMm, p.note)
  }

  lemma CollectIs<A, B>(xs: seq<A>, f: A -> Result<B, SaveError>, ys: seq<B>)
    requires |ys| == |xs| && forall k :: 0 <= k < |xs| ==> f(xs[k]) == Ok(ys[k])
    ensures Collect(xs, f) == Ok(ys)
  {
    var r := Collect(xs, f);
    assert forall k :: 0 <= k < |xs| ==> f(xs[k]) == Ok(ys[k]);
    assert r.Ok?;
    assert forall k :: 0 <= k < |xs| ==> f(xs[k]) == Ok(r.value[k]);
    assert r.value == ys;
  }

  /** The texts of a record that has been through a save. */
  predicate RouteTidy(r: SavedRoute) {
    Trim(r.name) == r.name && NonBlank(r.routing) == r.routing && LowerAscii(r.colour) == r.colour
  }

  predicate ReachTidy(r: SavedReach) { Trim(r.name) == r.name && NonBlank(r.measure) == r.measure }

  predicate ZonesTidy(zones: seq<OpenZone>) { forall k :: 0 <= k < |zones| ==> Trim(zones[k].name) == zones[k].name }

  predicate RoutesTidy(routes: seq<SavedRoute>) { forall k :: 0 <= k < |routes| ==> RouteTidy(routes[k]) }

  predicate ReachesTidy(reaches: seq<SavedReach>) { forall k :: 0 <= k < |reaches| ==> ReachTidy(reaches[k]) }

  lemma ZonesComeTidy(listing: Listing, zones: seq<ZoneInput>, links: seq<LinkInput>)
    requires Resolve(listing, zones, links).Ok?
    ensures ZonesTidy(Resolve(listing, zones, links).value.0)
  {
    hide Trim, ZoneRefers;
    ResolvedIsAsked(listing, zones, links);
    var out := Resolve(listing, zones, links).value.0;
    hide Resolve;
    forall k | 0 <= k < |out|
      ensures Trim(out[k].name) == out[k].name
    {
      ZoneNameIs(if listing.Ok? then listing.value else [], zones[k], out[k]);
      TrimIsIdempotent(zones[k].name);
    }
  }

  lemma ZoneNameIs(rooms: seq<RoomRef>, z: ZoneInput, out: OpenZone)
    requires ZoneRefers(rooms, z, out)
    ensures out.name == Trim(z.name)
  {
    hide Trim, Refers, AllRefer;
  }

  lemma RoutesComeTidy(listing: Listing, routes: Option<seq<RouteInput>>)
    requires ResolveRoutes(listing, routes).Ok? && routes.Some?
    ensures RoutesTidy(ResolveRoutes(listing, routes).value.value)
  {
    hide ResolveRoom, IndexFor, AnyUnnamed, RoomsOf, Trim, Blank;
    var models := IndexFor(listing, AnyUnnamed(RoomsOf(routes.value, RouteRooms))).value;
    var out := ResolveRoutes(listing, routes).value.value;
    forall k | 0 <= k < |out|
      ensures RouteTidy(out[k])
    {
      assert RouteBy(models)(routes.value[k]) == Ok(out[k]);
      TrimIsIdempotent(routes.value[k].name);
    }
  }

  lemma ReachesComeTidy(listing: Listing, reaches: Option<seq<ReachInput>>)
    requires ResolveReaches(listing, reaches).Ok? && reaches.Some?
    ensures ReachesTidy(ResolveReaches(listing, reaches).value.value)
  {
    hide ResolveRoom, IndexFor, AnyUnnamed, RoomsOf, Trim, Blank;
    var models := IndexFor(listing, AnyUnnamed(RoomsOf(reaches.value, ReachRooms))).value;
    var out := ResolveReaches(listing, reaches).value.value;
    forall k | 0 <= k < |out|
      ensures ReachTidy(out[k])
    {
      assert ReachBy(models)(reaches.value[k]) == Ok(out[k]);
      TrimIsIdempotent(reaches.value[k].name);
    }
  }

  lemma NamedComesBack(models: Index, ref: RoomRef)
    requires RoomNamed(ref)
    ensures Named(AsInput(ref)) && ResolveRoom(models, AsInput(ref)) == Ok(ref)
  {
    hide Blank;
  }

  lemma MembersAreNamed(z: OpenZone)
    requires ZoneOk(z)
    ensures forall r :: r in z.rooms ==> RoomNamed(r)
    ensures forall k :: 0 <= k < |z.disconnects| ==> RoomNamed(z.disconnects[k].a) && RoomNamed(z.disconnects[k].b)
    ensures z.hub.Some? ==> RoomNamed(z.hub.value)
  {
    hide RoomNamed, Blank, SameCut, NoteOk;
    forall r | r in z.rooms
      ensures RoomNamed(r)
    {
      var k :| 0 <= k < |z.rooms| && z.rooms[k] == r;
    }
  }

  lemma ZoneComesBack(models: Index, z: OpenZone)
    requires ZoneOk(z) && Trim(z.name) == z.name
    ensures ResolveZone(models, ZoneAsInput(z)) == Ok(z)
    ensures forall r :: r in ZoneRooms(ZoneAsInput(z)) ==> Named(r)
  {
    hide ZoneOk, RoomNamed, Trim, ResolveRoom, Named, RoomsOf, Collect;
    MembersAreNamed(z);
    var input := ZoneAsInput(z);
    forall k | 0 <= k < |z.rooms|
      ensures RoomBy(models)(input.rooms[k]) == Ok(z.rooms[k]) && Named(input.rooms[k])
    {
      NamedComesBack(models, z.rooms[k]);
    }
    forall k | 0 <= k < |z.disconnects|
      ensures CutBy(models)(input.disconnects[k]) == Ok(z.disconnects[k])
      ensures forall r :: r in CutRooms(input.disconnects[k]) ==> Named(r)
    {
      NamedComesBack(models, z.disconnects[k].a);
      NamedComesBack(models, z.disconnects[k].b);
    }
    if z.hub.Some? {
      NamedComesBack(models, z.hub.value);
    }
    CollectIs(input.rooms, RoomBy(models), z.rooms);
    CollectIs(input.disconnects, CutBy(models), z.disconnects);
    hide CutRooms, ResolveCut;
  }

  lemma LinkComesBack(models: Index, l: VerticalLink)
    requires LinkOk(l)
    ensures ResolveLink(models, LinkAsInput(l)) == Ok(l)
    ensures forall r :: r in LinkRooms(LinkAsInput(l)) ==> Named(r)
  {
    hide RoomNamed, Blank, ResolveRoom, Named;
    NamedComesBack(models, l.a);
    NamedComesBack(models, l.b);
  }

  lemma RouteComesBack(models: Index, r: SavedRoute)
    requires RouteOk(r) && RouteTidy(r)
    ensures ResolveRoute(models, RouteAsInput(r)) == Ok(r)
  {
    hide RoomNamed, Blank, ResolveRoom, Trim, IsHexColour, LowerAscii;
    NamedComesBack(models, r.start);
    NamedComesBack(models, r.end);
  }

  lemma PassageComesBack(models: Index, p: Passage)
    requires PassageOk(p)
    ensures ResolvePassage(models, PassageAsInput(p)) == Ok(p)
  {
    hide RoomNamed, Blank, ResolveRoom;
    NamedComesBack(models, p.a);
    NamedComesBack(models, p.b);
  }

  lemma ReachComesBack(models: Index, r: SavedReach)
    requires ReachOk(r) && ReachTidy(r)
    ensures ResolveReach(models, ReachAsInput(r)) == Ok(r)
    ensures forall room :: room in ReachRooms(ReachAsInput(r)) ==> Named(room)
  {
    hide RoomNamed, Blank, ResolveRoom, Trim, Named;
    var input := ReachAsInput(r);
    forall k | 0 <= k < |r.sources|
      ensures StartBy(models)(input.sources[k]) == Ok(r.sources[k])
      ensures Named(input.sources[k].room)
    {
      NamedComesBack(models, r.sources[k].room);
    }
    CollectIs(input.sources, StartBy(models), r.sources);
  }

  /** Saved zones and links, sent back as read, resolve to themselves whatever the listing says, and
    * without reading it: authored data outlives the rooms it names. */
  lemma ZonesComeBack(listing: Listing, zones: seq<OpenZone>, links: seq<VerticalLink>)
    requires ZonesOk(zones) && LinksOk(links) && ZonesTidy(zones)
    ensures Resolve(listing, Each(zones, ZoneAsInput), Each(links, LinkAsInput)) == Ok((zones, links))
  {
    hide ZoneOk, LinkOk, Trim, PathSafe, Named, ResolveZone, ResolveLink, ZoneRooms, LinkRooms, ZoneAsInput, LinkAsInput;
    var zonesIn, linksIn := Each(zones, ZoneAsInput), Each(links, LinkAsInput);
    forall k | 0 <= k < |zones|
      ensures ZoneBy(map[])(zonesIn[k]) == Ok(zones[k]) && forall r :: r in ZoneRooms(zonesIn[k]) ==> Named(r)
    {
      ZoneComesBack(map[], zones[k]);
    }
    forall k | 0 <= k < |links|
      ensures LinkBy(map[])(linksIn[k]) == Ok(links[k]) && forall r :: r in LinkRooms(linksIn[k]) ==> Named(r)
    {
      LinkComesBack(map[], links[k]);
    }
    forall r | r in RoomsNamed(zonesIn, linksIn)
      ensures Named(r)
    {
    }
    NamedHasModel(RoomsNamed(zonesIn, linksIn));
    hide RoomsOf, RoomsNamed, AnyWithoutModel, ZonesOk, LinksOk;
    CollectIs(zonesIn, ZoneBy(map[]), zones);
    CollectIs(linksIn, LinkBy(map[]), links);
  }

  lemma NamedHasModel(rooms: seq<RoomInput>)
    requires forall r :: r in rooms ==> Named(r)
    ensures !AnyWithoutModel(rooms) && !AnyUnnamed(rooms)
  {
    hide Blank;
  }

  /** The same for each of the later lists. */
  lemma ListComesBack<A(!new), B(!new)>(listing: Listing, xs: seq<B>, asInput: B -> A, of: A -> seq<RoomInput>, make: Index -> A -> Result<B, SaveError>)
    requires forall k :: 0 <= k < |xs| ==> make(map[])(asInput(xs[k])) == Ok(xs[k])
    requires forall k :: 0 <= k < |xs| ==> forall r :: r in of(asInput(xs[k])) ==> Named(r)
    ensures ResolveList(listing, Some(Each(xs, asInput)), of, make) == Ok(Some(xs))
  {
    hide Named, AnyUnnamed, RoomsOf;
    var inputs := Each(xs, asInput);
    forall r | r in RoomsOf(inputs, of)
      ensures Named(r)
    {
      var k :| 0 <= k < |inputs| && r in of(inputs[k]);
      assert inputs[k] == asInput(xs[k]);
    }
    NamedHasModel(RoomsOf(inputs, of));
    CollectIs(inputs, make(map[]), xs);
  }

  lemma RoutesComeBack(listing: Listing, routes: seq<SavedRoute>)
    requires RoutesOk(routes) && RoutesTidy(routes)
    ensures ResolveRoutes(listing, Some(Each(routes, RouteAsInput))) == Ok(Some(routes))
  {
    hide RouteTidy, PathSafe, ResolveRoute, ResolveList, Named, RoomNamed, IsHexColour, Trim;
    forall k | 0 <= k < |routes|
      ensures RouteBy(map[])(RouteAsInput(routes[k])) == Ok(routes[k])
      ensures forall r :: r in RouteRooms(RouteAsInput(routes[k])) ==> Named(r)
    {
      RouteComesBack(map[], routes[k]);
      NamedComesBack(map[], routes[k].start);
      NamedComesBack(map[], routes[k].end);
    }
    ListComesBack(listing, routes, RouteAsInput, RouteRooms, RouteBy);
  }

  lemma PassagesComeBack(listing: Listing, passages: seq<Passage>)
    requires PassagesOk(passages)
    ensures ResolvePassages(listing, Some(Each(passages, PassageAsInput))) == Ok(Some(passages))
  {
    hide PathSafe, ResolvePassage, ResolveList, Named, RoomNamed;
    forall k | 0 <= k < |passages|
      ensures PassageBy(map[])(PassageAsInput(passages[k])) == Ok(passages[k])
      ensures forall r :: r in PassageRooms(PassageAsInput(passages[k])) ==> Named(r)
    {
      PassageComesBack(map[], passages[k]);
      NamedComesBack(map[], passages[k].a);
      NamedComesBack(map[], passages[k].b);
    }
    ListComesBack(listing, passages, PassageAsInput, PassageRooms, PassageBy);
  }

  lemma ReachesComeBack(listing: Listing, reaches: seq<SavedReach>)
    requires ReachesOk(reaches) && ReachesTidy(reaches)
    ensures ResolveReaches(listing, Some(Each(reaches, ReachAsInput))) == Ok(Some(reaches))
  {
    hide ReachTidy, PathSafe, ResolveReach, ResolveList, Named, ReachOk, ReachRooms, ReachAsInput;
    forall k | 0 <= k < |reaches|
      ensures ReachBy(map[])(ReachAsInput(reaches[k])) == Ok(reaches[k])
      ensures forall r :: r in ReachRooms(ReachAsInput(reaches[k])) ==> Named(r)
    {
      ReachComesBack(map[], reaches[k]);
    }
    ListComesBack(listing, reaches, ReachAsInput, ReachRooms, ReachBy);
  }
}
