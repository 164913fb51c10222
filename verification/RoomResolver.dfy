/** From room inputs to `RoomRef`s: one input is a pure lookup in an index of the listing, a record resolves
  * when all its inputs do, and a list when all its records do. When the index is empty because it was never
  * built differs between the lists, and the theorems say what that costs.
  */
module RoomResolver {

  import opened Wrappers
  import opened Text
  import opened Geometry
  import opened Connections

  datatype RoomInput = RoomInput(roomId: string, modelId: Option<string>)

  datatype DisconnectInput = DisconnectInput(a: RoomInput, b: RoomInput)

  datatype ZoneInput = ZoneInput(id: string, name: string, rooms: seq<RoomInput>, disconnects: seq<DisconnectInput>,
                                 hub: Option<RoomInput>, note: Option<string>)

  datatype LinkInput = LinkInput(id: string, a: RoomInput, b: RoomInput, costFt: Option<real>, note: Option<string>)

  datatype RouteInput = RouteInput(id: string, name: string, start: RoomInput, end: RoomInput,
                                   startAt: Option<Point>, endAt: Option<Point>, routing: Option<string>,
                                   widthMm: Option<real>, heightMm: Option<real>, colour: string, note: Option<string>)

  datatype ReachStartInput = ReachStartInput(room: RoomInput, at: Option<Point>)

  datatype ReachInput = ReachInput(id: string, name: string, sources: seq<ReachStartInput>, limitMm: real,
                                   spacingMm: real, measure: Option<string>, ignoreCuts: bool, note: Option<string>)

  datatype PassageInput = PassageInput(id: string, a: RoomInput, b: RoomInput, start: Point, end: Point,
                                       widthMm: Option<real>, heightMm: Option<real>, note: Option<string>)

  datatype SaveError = Invalid | Conflict | Internal

  /** The project's rooms as one read of the model lists them, if that read succeeds. */
  type Listing = Result<seq<RoomRef>, SaveError>

  /** The models in which each room id occurs, once per occurrence. */
  type Index = map<string, seq<string>>

  // ---------------------------------------------------------------- the index

  function ModelsOf(rooms: seq<RoomRef>, roomId: string): seq<string> {
    if rooms == [] then []
    else
      var before := ModelsOf(rooms[..|rooms| - 1], roomId);
      var last := rooms[|rooms| - 1];
      if last.roomId == roomId then before + [last.modelId] else before
  }

  function IndexOf(rooms: seq<RoomRef>): Index {
    map id | id in (set r | r in rooms :: r.roomId) :: ModelsOf(rooms, id)
  }

  /** The index of the listing, or an empty one where no lookup was asked for. */
  method ForProject(listing: Listing, needsLookup: bool) returns (r: Result<Index, SaveError>)
    ensures r == IndexFor(listing, needsLookup)
  {
    hide ModelsOf;
    if !needsLookup {
      return Ok(map[]);
    }
    if listing.Err? {
      return Err(listing.error);
    }
    var rooms := listing.value;
    var models: Index := map[];
    for k := 0 to |rooms|
      invariant models == IndexOf(rooms[..k])
    {
      var room := rooms[k];
      IndexGrows(rooms, k);
      models := models[room.roomId := (if room.roomId in models then models[room.roomId] else []) + [room.modelId]];
    }
    assert rooms[..|rooms|] == rooms;
    return Ok(models);
  }

  function IndexFor(listing: Listing, needsLookup: bool): Result<Index, SaveError> {
    if !needsLookup then Ok(map[])
    else if listing.Err? then Err(listing.error)
    else Ok(IndexOf(listing.value))
  }

  lemma {:induction false} NoModels(rooms: seq<RoomRef>, roomId: string)
    ensures ModelsOf(rooms, roomId) == [] <==> forall k :: 0 <= k < |rooms| ==> rooms[k].roomId != roomId
  {
    if rooms != [] {
      var rest := rooms[..|rooms| - 1];
      assert rooms == rest + [rooms[|rooms| - 1]];
      NoModels(rest, roomId);
      assert forall k :: 0 <= k < |rest| ==> rest[k] == rooms[k];
    }
  }

  lemma IndexGrows(rooms: seq<RoomRef>, k: nat)
    requires k < |rooms|
    ensures var before, room := IndexOf(rooms[..k]), rooms[k];
            IndexOf(rooms[..k + 1]) == before[room.roomId := (if room.roomId in before then before[room.roomId] else []) + [room.modelId]]
  {
    var room := rooms[k];
    assert rooms[..k + 1] == rooms[..k] + [room];
    assert rooms[..k + 1][..k] == rooms[..k];
    NoModels(rooms[..k], room.roomId);
  }

  /** Exactly one entry of the listing has this room id, at k. */
  predicate OnlyAt(rooms: seq<RoomRef>, roomId: string, k: nat) {
    k < |rooms| && rooms[k].roomId == roomId && forall j :: 0 <= j < |rooms| && rooms[j].roomId == roomId ==> j == k
  }

  ghost predicate Unique(rooms: seq<RoomRef>, roomId: string) {
    exists k: nat :: OnlyAt(rooms, roomId, k)
  }

  /** One model in the index means one entry in the listing, and it is that entry's model. */
  lemma {:induction false} OneModel(rooms: seq<RoomRef>, roomId: string)
    ensures |ModelsOf(rooms, roomId)| == 1 <==> Unique(rooms, roomId)
    ensures |ModelsOf(rooms, roomId)| == 1 ==> RoomRef(ModelsOf(rooms, roomId)[0], roomId) in rooms
  {
    if rooms != [] {
      var n := |rooms| - 1;
      var rest := rooms[..n];
      assert rooms == rest + [rooms[n]];
      OneModel(rest, roomId);
      NoModels(rest, roomId);
      if rooms[n].roomId == roomId {
        assert RoomRef(rooms[n].modelId, roomId) == rooms[n];
        if forall k :: 0 <= k < |rest| ==> rest[k].roomId != roomId {
          assert OnlyAt(rooms, roomId, n);
        } else {
          var k :| 0 <= k < |rest| && rest[k].roomId == roomId;
          assert rooms[k].roomId == roomId;
        }
      } else {
        if k: nat :| OnlyAt(rest, roomId, k) {
          assert OnlyAt(rooms, roomId, k);
        }
        if k: nat :| OnlyAt(rooms, roomId, k) {
          assert OnlyAt(rest, roomId, k);
        }
      }
    }
  }

  // ---------------------------------------------------------------- one room

  /** The caller named the model. */
  predicate Named(r: RoomInput) { r.modelId.Some? && !Blank(r.modelId.value) }

  function ResolveRoom(models: Index, r: RoomInput): Result<RoomRef, SaveError> {
    if Named(r) then Ok(RoomRef(r.modelId.value, r.roomId))
    else if r.roomId in models && |models[r.roomId]| == 1 then Ok(RoomRef(models[r.roomId][0], r.roomId))
    else Err(Invalid)
  }

  /** What a reference owes its input: the same room id, the model the caller named or else the only model
    * that has such a room. Never a guess. */
  ghost predicate Refers(rooms: seq<RoomRef>, r: RoomInput, ref: RoomRef) {
    && ref.roomId == r.roomId
    && if Named(r) then ref.modelId == r.modelId.value else ref in rooms && Unique(rooms, r.roomId)
  }

  lemma RoomResolves(rooms: seq<RoomRef>, r: RoomInput)
    ensures ResolveRoom(IndexOf(rooms), r).Ok? <==> Named(r) || Unique(rooms, r.roomId)
    ensures ResolveRoom(IndexOf(rooms), r).Ok? ==> Refers(rooms, r, ResolveRoom(IndexOf(rooms), r).value)
  {
    hide Blank, Unique;
    OneModel(rooms, r.roomId);
    NoModels(rooms, r.roomId);
  }

  // ---------------------------------------------------------------- lists of records

  /** Every record, or the first refusal. */
  function Collect<A, B>(xs: seq<A>, f: A -> Result<B, SaveError>): (r: Result<seq<B>, SaveError>)
    ensures r.Ok? <==> forall k :: 0 <= k < |xs| ==> f(xs[k]).Ok?
    ensures r.Ok? ==> |r.value| == |xs| && forall k :: 0 <= k < |xs| ==> f(xs[k]) == Ok(r.value[k])
  {
    if xs == [] then Ok([])
    else
      var first := f(xs[0]);
      if first.Err? then
        assert f(xs[0]).Err?;
        Err(first.error)
      else
        var rest := Collect(xs[1..], f);
        assert forall k :: 1 <= k < |xs| ==> xs[k] == xs[1..][k - 1];
        if rest.Err? then Err(rest.error) else Ok([first.value] + rest.value)
  }

  /** The rooms of every record of a list. */
  function RoomsOf<A>(xs: seq<A>, of: A -> seq<RoomInput>): (r: seq<RoomInput>)
    ensures forall room :: room in r <==> exists k :: 0 <= k < |xs| && room in of(xs[k])
  {
    if xs == [] then []
    else
      assert forall k :: 1 <= k < |xs| ==> xs[k] == xs[1..][k - 1];
      of(xs[0]) + RoomsOf(xs[1..], of)
  }

  function NonBlank(s: Option<string>): Option<string> {
    if s.Some? && Blank(s.value) then None else s
  }

  function NonZero(x: Option<real>): Option<real> {
    if x == Some(0.0) then None else x
  }

  function LowerAscii(s: string): (t: string)
    ensures |t| == |s|
  {
    seq(|s|, k requires 0 <= k < |s| => if 'A' <= s[k] <= 'Z' then (s[k] as int + 32) as char else s[k])
  }

  function ZoneRooms(z: ZoneInput): seq<RoomInput> {
    z.rooms + RoomsOf(z.disconnects, CutRooms) + if z.hub.Some? then [z.hub.value] else []
  }

  function CutRooms(d: DisconnectInput): seq<RoomInput> { [d.a, d.b] }

  function LinkRooms(l: LinkInput): seq<RoomInput> { [l.a, l.b] }

  function RouteRooms(r: RouteInput): seq<RoomInput> { [r.start, r.end] }

  function StartRooms(s: ReachStartInput): seq<RoomInput> { [s.room] }

  function ReachRooms(r: ReachInput): seq<RoomInput> { RoomsOf(r.sources, StartRooms) }

  function PassageRooms(p: PassageInput): seq<RoomInput> { [p.a, p.b] }

  function RoomBy(models: Index): RoomInput -> Result<RoomRef, SaveError> {
    r => ResolveRoom(models, r)
  }

  function ResolveCut(models: Index, d: DisconnectInput): Result<Disconnect, SaveError> {
    var a, b := ResolveRoom(models, d.a), ResolveRoom(models, d.b);
    if a.Err? then Err(a.error) else if b.Err? then Err(b.error) else Ok(Disconnect(a.value, b.value))
  }

  function CutBy(models: Index): DisconnectInput -> Result<Disconnect, SaveError> {
    d => ResolveCut(models, d)
  }

  function ResolveHub(models: Index, hub: Option<RoomInput>): Result<Option<RoomRef>, SaveError> {
    if hub.None? then Ok(None)
    else
      var room := ResolveRoom(models, hub.value);
      if room.Err? then Err(room.error) else Ok(Some(room.value))
  }

  function ResolveZone(models: Index, z: ZoneInput): Result<OpenZone, SaveError> {
    var rooms := Collect(z.rooms, RoomBy(models));
    var cuts := Collect(z.disconnects, CutBy(models));
    var hub := ResolveHub(models, z.hub);
    if rooms.Err? then Err(rooms.error)
    else if cuts.Err? then Err(cuts.error)
    else if hub.Err? then Err(hub.error)
    else Ok(OpenZone(z.id, Trim(z.name), rooms.value, cuts.value, hub.value, z.note))
  }

  function ResolveLink(models: Index, l: LinkInput): Result<VerticalLink, SaveError> {
    var a, b := ResolveRoom(models, l.a), ResolveRoom(models, l.b);
    if a.Err? then Err(a.error) else if b.Err? then Err(b.error)
    else Ok(VerticalLink(l.id, a.value, b.value, l.costFt, l.note))
  }

  function ResolveRoute(models: Index, r: RouteInput): Result<SavedRoute, SaveError> {
    var start, end := ResolveRoom(models, r.start), ResolveRoom(models, r.end);
    if start.Err? then Err(start.error) else if end.Err? then Err(end.error)
    else Ok(SavedRoute(r.id, Trim(r.name), start.value, end.value, r.startAt, r.endAt, NonBlank(r.routing),
                       NonZero(r.widthMm), NonZero(r.heightMm), LowerAscii(r.colour), r.note))
  }

  function ResolveStart(models: Index, s: ReachStartInput): Result<ReachStart, SaveError> {
    var room := ResolveRoom(models, s.room);
    if room.Err? then Err(room.error) else Ok(ReachStart(room.value, s.at))
  }

  function StartBy(models: Index): ReachStartInput -> Result<ReachStart, SaveError> {
    s => ResolveStart(models, s)
  }

  function ResolveReach(models: Index, r: ReachInput): Result<SavedReach, SaveError> {
    var sources := Collect(r.sources, StartBy(models));
    if sources.Err? then Err(sources.error)
    else Ok(SavedReach(r.id, Trim(r.name), sources.value, r.limitMm, r.spacingMm, NonBlank(r.measure), r.ignoreCuts, r.note))
  }

  function ResolvePassage(models: Index, p: PassageInput): Result<Passage, SaveError> {
    var a, b := ResolveRoom(models, p.a), ResolveRoom(models, p.b);
    if a.Err? then Err(a.error) else if b.Err? then Err(b.error)
    else Ok(Passage(p.id, a.value, b.value, p.start, p.end, NonZero(p.widthMm), NonZero(p.heightMm), p.note))
  }

  function ZoneBy(models: Index): ZoneInput -> Result<OpenZone, SaveError> { z => ResolveZone(models, z) }

  function LinkBy(models: Index): LinkInput -> Result<VerticalLink, SaveError> { l => ResolveLink(models, l) }

  function RouteBy(models: Index): RouteInput -> Result<SavedRoute, SaveError> { r => ResolveRoute(models, r) }

  function ReachBy(models: Index): ReachInput -> Result<SavedReach, SaveError> { r => ResolveReach(models, r) }

  function PassageBy(models: Index): PassageInput -> Result<Passage, SaveError> { p => ResolvePassage(models, p) }

  /** For zones and links the rooms are read when some room has no model at all... */
  predicate AnyWithoutModel(rooms: seq<RoomInput>) { exists r :: r in rooms && r.modelId.None? }

  /** ...for the other lists, also when some room's model is blank. */
  predicate AnyUnnamed(rooms: seq<RoomInput>) { exists r :: r in rooms && !Named(r) }

  function RoomsNamed(zones: seq<ZoneInput>, links: seq<LinkInput>): seq<RoomInput> {
    RoomsOf(zones, ZoneRooms) + RoomsOf(links, LinkRooms)
  }

  function Resolve(listing: Listing, zones: seq<ZoneInput>, links: seq<LinkInput>): Result<(seq<OpenZone>, seq<VerticalLink>), SaveError> {
    var models := IndexFor(listing, AnyWithoutModel(RoomsNamed(zones, links)));
    if models.Err? then Err(models.error)
    else
      var zonesOut := Collect(zones, ZoneBy(models.value));
      if zonesOut.Err? then Err(zonesOut.error)
      else
        var linksOut := Collect(links, LinkBy(models.value));
        if linksOut.Err? then Err(linksOut.error) else Ok((zonesOut.value, linksOut.value))
  }

  /** The three later lists: absent stays absent, for "keep what is saved". */
  function ResolveList<A, B>(listing: Listing, list: Option<seq<A>>, of: A -> seq<RoomInput>, make: Index -> A -> Result<B, SaveError>)
    : Result<Option<seq<B>>, SaveError>
  {
    if list.None? then Ok(None)
    else
      var models := IndexFor(listing, AnyUnnamed(RoomsOf(list.value, of)));
      if models.Err? then Err(models.error)
      else
        var records := Collect(list.value, make(models.value));
        if records.Err? then Err(records.error) else Ok(Some(records.value))
  }

  function ResolveRoutes(listing: Listing, routes: Option<seq<RouteInput>>): Result<Option<seq<SavedRoute>>, SaveError> {
    ResolveList(listing, routes, RouteRooms, RouteBy)
  }

  function ResolveReaches(listing: Listing, reaches: Option<seq<ReachInput>>): Result<Option<seq<SavedReach>>, SaveError> {
    ResolveList(listing, reaches, ReachRooms, ReachBy)
  }

  function ResolvePassages(listing: Listing, passages: Option<seq<PassageInput>>): Result<Option<seq<Passage>>, SaveError> {
    ResolveList(listing, passages, PassageRooms, PassageBy)
  }

  // ---------------------------------------------------------------- when a list resolves

  /** Every room of a list resolves. */
  ghost predicate AllResolve(models: Index, rooms: seq<RoomInput>) {
    forall r :: r in rooms ==> ResolveRoom(models, r).Ok?
  }

  /** A list of records resolves when all their rooms do. */
  lemma ListResolves<A(!new), B(!new)>(models: Index, xs: seq<A>, of: A -> seq<RoomInput>, f: A -> Result<B, SaveError>)
    requires forall x :: f(x).Ok? <==> AllResolve(models, of(x))
    ensures Collect(xs, f).Ok? <==> AllResolve(models, RoomsOf(xs, of))
  {
    hide ResolveRoom;
    if Collect(xs, f).Ok? {
      forall r | r in RoomsOf(xs, of)
        ensures ResolveRoom(models, r).Ok?
      {
        var k :| 0 <= k < |xs| && r in of(xs[k]);
        assert f(xs[k]).Ok?;
      }
    }
  }

  lemma CutResolves(models: Index, d: DisconnectInput)
    ensures ResolveCut(models, d).Ok? <==> AllResolve(models, CutRooms(d))
  {
    hide ResolveRoom;
    assert d.a in CutRooms(d) && d.b in CutRooms(d);
  }

  lemma MembersResolve(models: Index, rooms: seq<RoomInput>)
    ensures Collect(rooms, RoomBy(models)).Ok? <==> AllResolve(models, rooms)
  {
    hide ResolveRoom;
    if Collect(rooms, RoomBy(models)).Ok? {
      forall r | r in rooms
        ensures ResolveRoom(models, r).Ok?
      {
        var k :| 0 <= k < |rooms| && rooms[k] == r;
        assert RoomBy(models)(rooms[k]).Ok?;
      }
    }
  }

  lemma ZoneResolves(models: Index, z: ZoneInput)
    ensures ResolveZone(models, z).Ok? <==> AllResolve(models, ZoneRooms(z))
  {
    hide ResolveRoom, RoomsOf, Collect, ResolveCut, CutRooms;
    MembersResolve(models, z.rooms);
    forall d ensures CutBy(models)(d).Ok? <==> AllResolve(models, CutRooms(d)) { CutResolves(models, d); }
    ListResolves(models, z.disconnects, CutRooms, CutBy(models));
    var hub := if z.hub.Some? then [z.hub.value] else [];
    assert ZoneRooms(z) == z.rooms + RoomsOf(z.disconnects, CutRooms) + hub;
    hide ZoneRooms;
    AllResolveParts(models, z.rooms, RoomsOf(z.disconnects, CutRooms), hub);
  }

  lemma AllResolveParts(models: Index, a: seq<RoomInput>, b: seq<RoomInput>, c: seq<RoomInput>)
    ensures AllResolve(models, a + b + c) <==> AllResolve(models, a) && AllResolve(models, b) && AllResolve(models, c)
  {
    hide ResolveRoom;
    var all := a + b + c;
    assert forall r :: r in all <==> r in a || r in b || r in c;
  }

  lemma ReachResolves(models: Index, r: ReachInput)
    ensures ResolveReach(models, r).Ok? <==> AllResolve(models, ReachRooms(r))
  {
    hide ResolveRoom, RoomsOf, Collect;
    forall s
      ensures StartBy(models)(s).Ok? <==> AllResolve(models, StartRooms(s))
    {
      assert s.room in StartRooms(s);
    }
    ListResolves(models, r.sources, StartRooms, StartBy(models));
  }

  lemma AllResolveIn(rooms: seq<RoomRef>, needed: seq<RoomInput>)
    ensures AllResolve(IndexOf(rooms), needed) <==> forall r :: r in needed ==> Named(r) || Unique(rooms, r.roomId)
    ensures AllResolve(map[], needed) <==> forall r :: r in needed ==> Named(r)
  {
    hide Named, Unique, IndexOf;
    forall r | r in needed
      ensures ResolveRoom(IndexOf(rooms), r).Ok? <==> Named(r) || Unique(rooms, r.roomId)
    {
      RoomResolves(rooms, r);
    }
  }

  /** Zones and links resolve exactly when each room names its model or is alone under its id in the
    * listing and some room of the same request has no model at all. So a lone room whose model is blank is
    * refused although nothing is ambiguous about it. */
  lemma ZonesResolveWhen(rooms: seq<RoomRef>, zones: seq<ZoneInput>, links: seq<LinkInput>)
    ensures var all := RoomsNamed(zones, links);
            Resolve(Ok(rooms), zones, links).Ok? <==>
              forall r :: r in all ==> Named(r) || (Unique(rooms, r.roomId) && AnyWithoutModel(all))
  {
    hide Named, Unique, IndexOf, RoomsOf, Collect, ResolveZone, ResolveLink, ZoneRooms, ResolveRoom;
    var all := RoomsNamed(zones, links);
    var models := IndexFor(Ok(rooms), AnyWithoutModel(all)).value;
    forall z ensures ZoneBy(models)(z).Ok? <==> AllResolve(models, ZoneRooms(z)) { ZoneResolves(models, z); }
    forall l ensures LinkBy(models)(l).Ok? <==> AllResolve(models, LinkRooms(l)) { LinkResolves(models, l); }
    ListResolves(models, zones, ZoneRooms, ZoneBy(models));
    ListResolves(models, links, LinkRooms, LinkBy(models));
    AllResolveIn(rooms, all);
  }

  lemma LinkResolves(models: Index, l: LinkInput)
    ensures ResolveLink(models, l).Ok? <==> AllResolve(models, LinkRooms(l))
  {
    hide ResolveRoom;
    assert l.a in LinkRooms(l) && l.b in LinkRooms(l);
  }

  lemma RouteResolves(models: Index, r: RouteInput)
    ensures ResolveRoute(models, r).Ok? <==> AllResolve(models, RouteRooms(r))
  {
    hide ResolveRoom;
    assert r.start in RouteRooms(r) && r.end in RouteRooms(r);
  }

  lemma PassageResolves(models: Index, p: PassageInput)
    ensures ResolvePassage(models, p).Ok? <==> AllResolve(models, PassageRooms(p))
  {
    hide ResolveRoom;
    assert p.a in PassageRooms(p) && p.b in PassageRooms(p);
  }

  /** The other lists resolve exactly when each room names its model or is alone under its id. */
  lemma ListResolvesWhen<A(!new), B(!new)>(rooms: seq<RoomRef>, xs: seq<A>, of: A -> seq<RoomInput>, make: Index -> A -> Result<B, SaveError>)
    requires forall models, x :: make(models)(x).Ok? <==> AllResolve(models, of(x))
    ensures ResolveList(Ok(rooms), Some(xs), of, make).Ok? <==>
              forall r :: r in RoomsOf(xs, of) ==> Named(r) || Unique(rooms, r.roomId)
  {
    hide Named, Unique, IndexOf, RoomsOf, Collect, ResolveRoom;
    var needed := RoomsOf(xs, of);
    var models := IndexFor(Ok(rooms), AnyUnnamed(needed)).value;
    ListResolves(models, xs, of, make(models));
    AllResolveIn(rooms, needed);
  }

  lemma RoutesResolveWhen(rooms: seq<RoomRef>, routes: seq<RouteInput>)
    ensures ResolveRoutes(Ok(rooms), Some(routes)).Ok? <==>
              forall r :: r in RoomsOf(routes, RouteRooms) ==> Named(r) || Unique(rooms, r.roomId)
  {
    hide ResolveRoute, AllResolve, Named, Unique, RoomsOf, ResolveList;
    forall models, r
      ensures RouteBy(models)(r).Ok? <==> AllResolve(models, RouteRooms(r))
    {
      RouteResolves(models, r);
    }
    ListResolvesWhen(rooms, routes, RouteRooms, RouteBy);
  }

  lemma ReachesResolveWhen(rooms: seq<RoomRef>, reaches: seq<ReachInput>)
    ensures ResolveReaches(Ok(rooms), Some(reaches)).Ok? <==>
              forall r :: r in RoomsOf(reaches, ReachRooms) ==> Named(r) || Unique(rooms, r.roomId)
  {
    hide ResolveReach, AllResolve, Named, Unique, RoomsOf, ResolveList, ReachRooms;
    forall models, r
      ensures ReachBy(models)(r).Ok? <==> AllResolve(models, ReachRooms(r))
    {
      ReachResolves(models, r);
    }
    ListResolvesWhen(rooms, reaches, ReachRooms, ReachBy);
  }

  lemma PassagesResolveWhen(rooms: seq<RoomRef>, passages: seq<PassageInput>)
    ensures ResolvePassages(Ok(rooms), Some(passages)).Ok? <==>
              forall r :: r in RoomsOf(passages, PassageRooms) ==> Named(r) || Unique(rooms, r.roomId)
  {
    hide ResolvePassage, AllResolve, Named, Unique, RoomsOf, ResolveList;
    forall models, p
      ensures PassageBy(models)(p).Ok? <==> AllResolve(models, PassageRooms(p))
    {
      PassageResolves(models, p);
    }
    ListResolvesWhen(rooms, passages, PassageRooms, PassageBy);
  }

  lemma MadeBlank()
    ensures Blank("") && !Blank("M")
  {
    assert TrimStart("M") == "M" && TrimEnd("M") == "M";
  }

  lemma WingRooms(named: RoomInput, blank: RoomInput)
    ensures var zone := ZoneInput("z", "Wing", [named, blank], [], None, None);
            forall r :: r in RoomsNamed([zone], []) <==> r == named || r == blank
  {
    var zone := ZoneInput("z", "Wing", [named, blank], [], None, None);
    assert ZoneRooms(zone) == [named, blank];
    assert forall r :: r in RoomsOf([zone], ZoneRooms) <==> r in ZoneRooms([zone][0]);
    hide RoomsOf, ZoneRooms;
  }

  /** The refusing side occurs: beside a room whose model is named, one whose model is blank is refused though
    * it is the only room of that id, while as the end of a route it is found. */
  lemma LoneBlankRoomIsRefused()
    ensures var rooms := [RoomRef("M", "101"), RoomRef("M", "102")];
            var named, blank := RoomInput("101", Some("M")), RoomInput("102", Some(""));
            var route := RouteInput("r", "Way", named, blank, None, None, None, None, None, "#000000", None);
            && Unique(rooms, "102")
            && Resolve(Ok(rooms), [ZoneInput("z", "Wing", [named, blank], [], None, None)], []).Err?
            && ResolveRoutes(Ok(rooms), Some([route])).Ok?
  {
    hide Resolve, ResolveRoutes, RoomsNamed, RoomsOf, Blank;
    var rooms := [RoomRef("M", "101"), RoomRef("M", "102")];
    var named, blank := RoomInput("101", Some("M")), RoomInput("102", Some(""));
    var route := RouteInput("r", "Way", named, blank, None, None, None, None, None, "#000000", None);
    assert OnlyAt(rooms, "102", 1);
    MadeBlank();
    WingRooms(named, blank);
    ZonesResolveWhen(rooms, [ZoneInput("z", "Wing", [named, blank], [], None, None)], []);
    RoutesResolveWhen(rooms, [route]);
  }

  // ---------------------------------------------------------------- what they resolve to

  /** Rooms resolve in place: same order, each a reference of its own input. */
  ghost predicate AllRefer(rooms: seq<RoomRef>, inputs: seq<RoomInput>, refs: seq<RoomRef>) {
    |refs| == |inputs| && forall k :: 0 <= k < |inputs| ==> Refers(rooms, inputs[k], refs[k])
  }

  /** No reference is ever a guess: whether or not the rooms were read, a reference is to the room asked for. */
  lemma RoomRefers(listing: Listing, lookup: bool, r: RoomInput)
    requires IndexFor(listing, lookup).Ok? && ResolveRoom(IndexFor(listing, lookup).value, r).Ok?
    ensures Refers(if listing.Ok? then listing.value else [], r, ResolveRoom(IndexFor(listing, lookup).value, r).value)
  {
    if lookup {
      RoomResolves(listing.value, r);
    }
    hide Blank, Unique;
  }

  /** A zone resolves to itself with its rooms, its cuts and its hub each referring to what was asked. */
  ghost predicate ZoneRefers(rooms: seq<RoomRef>, z: ZoneInput, out: OpenZone) {
    && out.id == z.id && out.name == Trim(z.name) && out.note == z.note
    && AllRefer(rooms, z.rooms, out.rooms)
    && |out.disconnects| == |z.disconnects|
    && (forall k :: 0 <= k < |z.disconnects| ==>
          Refers(rooms, z.disconnects[k].a, out.disconnects[k].a) && Refers(rooms, z.disconnects[k].b, out.disconnects[k].b))
    && (if z.hub.None? then out.hub.None? else out.hub.Some? && Refers(rooms, z.hub.value, out.hub.value))
  }

  lemma ZoneRefersTo(listing: Listing, lookup: bool, z: ZoneInput)
    requires IndexFor(listing, lookup).Ok? && ResolveZone(IndexFor(listing, lookup).value, z).Ok?
    ensures ZoneRefers(if listing.Ok? then listing.value else [], z, ResolveZone(IndexFor(listing, lookup).value, z).value)
  {
    hide Refers, ResolveRoom, IndexFor, Trim;
    var models := IndexFor(listing, lookup).value;
    var out := ResolveZone(models, z).value;
    var rooms := if listing.Ok? then listing.value else [];
    forall k | 0 <= k < |z.rooms|
      ensures Refers(rooms, z.rooms[k], out.rooms[k])
    {
      assert RoomBy(models)(z.rooms[k]) == Ok(out.rooms[k]);
      RoomRefers(listing, lookup, z.rooms[k]);
    }
    forall k | 0 <= k < |z.disconnects|
      ensures Refers(rooms, z.disconnects[k].a, out.disconnects[k].a) && Refers(rooms, z.disconnects[k].b, out.disconnects[k].b)
    {
      assert CutBy(models)(z.disconnects[k]) == Ok(out.disconnects[k]);
      RoomRefers(listing, lookup, z.disconnects[k].a);
      RoomRefers(listing, lookup, z.disconnects[k].b);
    }
    if z.hub.Some? {
      RoomRefers(listing, lookup, z.hub.value);
    }
  }

  /** Zones and links resolve in place to what was asked. */
  lemma ResolvedIsAsked(listing: Listing, zones: seq<ZoneInput>, links: seq<LinkInput>)
    requires Resolve(listing, zones, links).Ok?
    ensures var rooms := if listing.Ok? then listing.value else [];
            var (zonesOut, linksOut) := Resolve(listing, zones, links).value;
            && |zonesOut| == |zones| && |linksOut| == |links|
            && (forall k :: 0 <= k < |zones| ==> ZoneRefers(rooms, zones[k], zonesOut[k]))
            && (forall k :: 0 <= k < |links| ==>
                  && Refers(rooms, links[k].a, linksOut[k].a) && Refers(rooms, links[k].b, linksOut[k].b)
                  && linksOut[k].id == links[k].id && linksOut[k].costFt == links[k].costFt && linksOut[k].note == links[k].note)
  {
    hide Refers, ZoneRefers, ResolveRoom, ResolveZone, IndexFor, AnyWithoutModel, RoomsNamed;
    var rooms := if listing.Ok? then listing.value else [];
    var lookup := AnyWithoutModel(RoomsNamed(zones, links));
    var models := IndexFor(listing, lookup).value;
    var (zonesOut, linksOut) := Resolve(listing, zones, links).value;
    forall k | 0 <= k < |zones|
      ensures ZoneRefers(rooms, zones[k], zonesOut[k])
    {
      assert ZoneBy(models)(zones[k]) == Ok(zonesOut[k]);
      ZoneRefersTo(listing, lookup, zones[k]);
    }
    forall k | 0 <= k < |links|
      ensures Refers(rooms, links[k].a, linksOut[k].a) && Refers(rooms, links[k].b, linksOut[k].b)
      ensures linksOut[k].id == links[k].id && linksOut[k].costFt == links[k].costFt && linksOut[k].note == links[k].note
    {
      assert LinkBy(models)(links[k]) == Ok(linksOut[k]);
      RoomRefers(listing, lookup, links[k].a);
      RoomRefers(listing, lookup, links[k].b);
    }
  }

  /** A zero size is dropped, any other kept; a blank word is dropped, any other kept as it is. */
  predicate SizeKept(asked: Option<real>, out: Option<real>) {
    if asked == Some(0.0) then out.None? else out == asked
  }

  predicate WordKept(asked: Option<string>, out: Option<string>) {
    if asked.Some? && Blank(asked.value) then out.None? else out == asked
  }

  /** The same text but for the case of its ASCII letters, which are all small. */
  predicate SameInSmall(asked: string, out: string) {
    && |out| == |asked|
    && forall k :: 0 <= k < |asked| ==> !('A' <= out[k] <= 'Z') && (out[k] == asked[k] || Upper(out[k]) == asked[k])
  }

  /** A route resolves to itself with both its rooms referring to what was asked. */
  ghost predicate RouteRefers(rooms: seq<RoomRef>, r: RouteInput, out: SavedRoute) {
    && out.id == r.id && out.name == Trim(r.name) && out.note == r.note
    && Refers(rooms, r.start, out.start) && Refers(rooms, r.end, out.end)
    && out.startAt == r.startAt && out.endAt == r.endAt
    && SizeKept(r.widthMm, out.widthMm) && SizeKept(r.heightMm, out.heightMm)
    && WordKept(r.routing, out.routing) && SameInSmall(r.colour, out.colour)
  }

  lemma RouteRefersTo(listing: Listing, lookup: bool, r: RouteInput)
    requires IndexFor(listing, lookup).Ok? && ResolveRoute(IndexFor(listing, lookup).value, r).Ok?
    ensures RouteRefers(if listing.Ok? then listing.value else [], r, ResolveRoute(IndexFor(listing, lookup).value, r).value)
  {
    hide Refers, ResolveRoom, IndexFor, Trim, Blank;
    RoomRefers(listing, lookup, r.start);
    RoomRefers(listing, lookup, r.end);
  }

  /** The later lists resolve in place too, and an absent list stays absent. */
  lemma RoutesAreAsked(listing: Listing, routes: Option<seq<RouteInput>>)
    requires ResolveRoutes(listing, routes).Ok?
    ensures var rooms, out := if listing.Ok? then listing.value else [], ResolveRoutes(listing, routes).value;
            && (out.None? <==> routes.None?)
            && (routes.Some? ==>
                  && |out.value| == |routes.value|
                  && forall k :: 0 <= k < |routes.value| ==> RouteRefers(rooms, routes.value[k], out.value[k]))
  {
    hide RouteRefers, ResolveRoute, IndexFor, AnyUnnamed, RoomsOf;
    if routes.Some? {
      var lookup := AnyUnnamed(RoomsOf(routes.value, RouteRooms));
      var models := IndexFor(listing, lookup).value;
      var out := ResolveRoutes(listing, routes).value.value;
      forall k | 0 <= k < |routes.value|
        ensures RouteRefers(if listing.Ok? then listing.value else [], routes.value[k], out[k])
      {
        assert RouteBy(models)(routes.value[k]) == Ok(out[k]);
        RouteRefersTo(listing, lookup, routes.value[k]);
      }
    }
  }

  /** A passage resolves to itself with both its rooms referring to what was asked. */
  ghost predicate PassageRefers(rooms: seq<RoomRef>, p: PassageInput, out: Passage) {
    && out.id == p.id && out.note == p.note
    && Refers(rooms, p.a, out.a) && Refers(rooms, p.b, out.b)
    && out.start == p.start && out.end == p.end
    && SizeKept(p.widthMm, out.widthMm) && SizeKept(p.heightMm, out.heightMm)
  }

  lemma PassageRefersTo(listing: Listing, lookup: bool, p: PassageInput)
    requires IndexFor(listing, lookup).Ok? && ResolvePassage(IndexFor(listing, lookup).value, p).Ok?
    ensures PassageRefers(if listing.Ok? then listing.value else [], p, ResolvePassage(IndexFor(listing, lookup).value, p).value)
  {
    hide Refers, ResolveRoom, IndexFor;
    RoomRefers(listing, lookup, p.a);
    RoomRefers(listing, lookup, p.b);
  }

  lemma PassagesAreAsked(listing: Listing, passages: Option<seq<PassageInput>>)
    requires ResolvePassages(listing, passages).Ok?
    ensures var rooms, out := if listing.Ok? then listing.value else [], ResolvePassages(listing, passages).value;
            && (out.None? <==> passages.None?)
            && (passages.Some? ==>
                  && |out.value| == |passages.value|
                  && forall k :: 0 <= k < |passages.value| ==> PassageRefers(rooms, passages.value[k], out.value[k]))
  {
    hide PassageRefers, ResolvePassage, IndexFor, AnyUnnamed, RoomsOf;
    if passages.Some? {
      var lookup := AnyUnnamed(RoomsOf(passages.value, PassageRooms));
      var models := IndexFor(listing, lookup).value;
      var out := ResolvePassages(listing, passages).value.value;
      forall k | 0 <= k < |passages.value|
        ensures PassageRefers(if listing.Ok? then listing.value else [], passages.value[k], out[k])
      {
        assert PassageBy(models)(passages.value[k]) == Ok(out[k]);
        PassageRefersTo(listing, lookup, passages.value[k]);
      }
    }
  }

  ghost predicate StartsRefer(rooms: seq<RoomRef>, inputs: seq<ReachStartInput>, starts: seq<ReachStart>) {
    && |starts| == |inputs|
    && forall k :: 0 <= k < |inputs| ==> Refers(rooms, inputs[k].room, starts[k].room) && starts[k].at == inputs[k].at
  }

  lemma StartsReferTo(listing: Listing, lookup: bool, r: ReachInput)
    requires IndexFor(listing, lookup).Ok? && ResolveReach(IndexFor(listing, lookup).value, r).Ok?
    ensures StartsRefer(if listing.Ok? then listing.value else [], r.sources, ResolveReach(IndexFor(listing, lookup).value, r).value.sources)
  {
    hide Refers, ResolveRoom, IndexFor, Trim;
    var models := IndexFor(listing, lookup).value;
    var out := ResolveReach(models, r).value.sources;
    forall k | 0 <= k < |r.sources|
      ensures Refers(if listing.Ok? then listing.value else [], r.sources[k].room, out[k].room) && out[k].at == r.sources[k].at
    {
      assert StartBy(models)(r.sources[k]) == Ok(out[k]);
      RoomRefers(listing, lookup, r.sources[k].room);
    }
  }

  /** A reach resolves to itself with each start room referring to what was asked. */
  ghost predicate ReachRefers(rooms: seq<RoomRef>, r: ReachInput, out: SavedReach) {
    && out.id == r.id && out.name == Trim(r.name) && out.note == r.note
    && StartsRefer(rooms, r.sources, out.sources)
    && out.limitMm == r.limitMm && out.spacingMm == r.spacingMm && out.ignoreCuts == r.ignoreCuts
    && WordKept(r.measure, out.measure)
  }

  lemma ReachRefersTo(listing: Listing, lookup: bool, r: ReachInput)
    requires IndexFor(listing, lookup).Ok? && ResolveReach(IndexFor(listing, lookup).value, r).Ok?
    ensures ReachRefers(if listing.Ok? then listing.value else [], r, ResolveReach(IndexFor(listing, lookup).value, r).value)
  {
    hide StartsRefer, IndexFor, Trim, Blank, Collect;
    StartsReferTo(listing, lookup, r);
  }

  lemma ReachesAreAsked(listing: Listing, reaches: Option<seq<ReachInput>>)
    requires ResolveReaches(listing, reaches).Ok?
    ensures var rooms, out := if listing.Ok? then listing.value else [], ResolveReaches(listing, reaches).value;
            && (out.None? <==> reaches.None?)
            && (reaches.Some? ==>
                  && |out.value| == |reaches.value|
                  && forall k :: 0 <= k < |reaches.value| ==> ReachRefers(rooms, reaches.value[k], out.value[k]))
  {
    hide ReachRefers, ResolveReach, IndexFor, AnyUnnamed, RoomsOf;
    if reaches.Some? {
      var lookup := AnyUnnamed(RoomsOf(reaches.value, ReachRooms));
      var models := IndexFor(listing, lookup).value;
      var out := ResolveReaches(listing, reaches).value.value;
      forall k | 0 <= k < |reaches.value|
        ensures ReachRefers(if listing.Ok? then listing.value else [], reaches.value[k], out[k])
      {
        assert ReachBy(models)(reaches.value[k]) == Ok(out[k]);
        ReachRefersTo(listing, lookup, reaches.value[k]);
      }
    }
  }
}
