/** The document of authored connections, and the four validators every saved document has passed. Each
  * validator loops as the store does, with mutable sets of what it has seen, and is proved to accept
  * exactly the lists that meet a declarative rule set.
  */
module Connections {

  import opened Wrappers
  import opened Text
  import opened Geometry

  datatype RoomRef = RoomRef(modelId: string, roomId: string)

  /** A cut: an unordered pair of a zone's members. */
  datatype Disconnect = Disconnect(a: RoomRef, b: RoomRef)

  datatype OpenZone = OpenZone(id: string, name: string, rooms: seq<RoomRef>, disconnects: seq<Disconnect>,
                               hub: Option<RoomRef>, note: Option<string>)

  datatype VerticalLink = VerticalLink(id: string, a: RoomRef, b: RoomRef, costFt: Option<real>, note: Option<string>)

  datatype SavedRoute = SavedRoute(id: string, name: string, start: RoomRef, end: RoomRef,
                                   startAt: Option<Point>, endAt: Option<Point>, routing: Option<string>,
                                   widthMm: Option<real>, heightMm: Option<real>, colour: string, note: Option<string>)

  datatype ReachStart = ReachStart(room: RoomRef, at: Option<Point>)

  datatype SavedReach = SavedReach(id: string, name: string, sources: seq<ReachStart>, limitMm: real, spacingMm: real,
                                   measure: Option<string>, ignoreCuts: bool, note: Option<string>)

  datatype Passage = Passage(id: string, a: RoomRef, b: RoomRef, start: Point, end: Point,
                             widthMm: Option<real>, heightMm: Option<real>, note: Option<string>)

  datatype Document = Document(takenAt: string, zones: seq<OpenZone>, links: seq<VerticalLink>,
                               routes: seq<SavedRoute>, passages: seq<Passage>, reaches: seq<SavedReach>)

  const EMPTY := Document("", [], [], [], [], [])

  const MAX_ZONES: nat := 5000
  const MAX_LINKS: nat := 20000
  const MAX_ROOMS_PER_ZONE: nat := 5000
  const MAX_ROUTES: nat := 5000
  const MAX_REACHES: nat := 5000
  const MAX_PASSAGES: nat := 20000
  const MAX_NOTE_CHARS: nat := 2000
  const MAX_DISCONNECTS_PER_ZONE: nat := 50000
  const MAX_NAME_CHARS: nat := 120
  const MAX_LEVEL_COST_FT: real := 1000.0
  const MAX_SOURCES: nat := 500
  const MAX_LIMIT_MM: real := 1000000.0
  const MIN_SPACING_MM: real := 100.0
  const MAX_SPACING_MM: real := 10000.0

  // ---------------------------------------------------------------- the declarative rules

  predicate NoteOk(note: Option<string>) { note.Some? ==> |note.value| <= MAX_NOTE_CHARS }

  predicate NameOk(name: string) { 0 < |Trim(name)| <= MAX_NAME_CHARS }

  predicate InRange(x: Option<real>, max: real) { x.Some? ==> 0.0 < x.value <= max }

  predicate RoomNamed(r: RoomRef) { !Blank(r.modelId) && !Blank(r.roomId) }

  predicate MembersOk(rooms: seq<RoomRef>) {
    && (forall k :: 0 <= k < |rooms| ==> RoomNamed(rooms[k]))
    && (forall j, k :: 0 <= j < k < |rooms| ==> rooms[j] != rooms[k])
  }

  /** A cut has no direction. */
  predicate SameCut(d: Disconnect, e: Disconnect) {
    (d.a == e.a && d.b == e.b) || (d.a == e.b && d.b == e.a)
  }

  predicate CutsOk(cuts: seq<Disconnect>, members: set<RoomRef>) {
    && (forall k :: 0 <= k < |cuts| ==> cuts[k].a in members && cuts[k].b in members && cuts[k].a != cuts[k].b)
    && (forall j, k :: 0 <= j < k < |cuts| ==> !SameCut(cuts[j], cuts[k]))
  }

  function MemberSet(rooms: seq<RoomRef>): set<RoomRef> { set r | r in rooms }

  predicate ZoneOk(z: OpenZone) {
    && !Blank(z.name)
    && 2 <= |z.rooms| <= MAX_ROOMS_PER_ZONE && MembersOk(z.rooms)
    && |z.disconnects| <= MAX_DISCONNECTS_PER_ZONE && CutsOk(z.disconnects, MemberSet(z.rooms))
    && (z.hub.Some? ==> z.hub.value in z.rooms)
    && NoteOk(z.note)
  }

  predicate ZonesOk(zones: seq<OpenZone>) {
    && |zones| <= MAX_ZONES
    && (forall k :: 0 <= k < |zones| ==> PathSafe(zones[k].id) && ZoneOk(zones[k]))
    && (forall j, k :: 0 <= j < k < |zones| ==> zones[j].id != zones[k].id)
  }

  predicate LinkOk(l: VerticalLink) {
    RoomNamed(l.a) && RoomNamed(l.b) && l.a != l.b && InRange(l.costFt, MAX_LEVEL_COST_FT) && NoteOk(l.note)
  }

  predicate LinksOk(links: seq<VerticalLink>) {
    && |links| <= MAX_LINKS
    && (forall k :: 0 <= k < |links| ==> PathSafe(links[k].id) && LinkOk(links[k]))
    && (forall j, k :: 0 <= j < k < |links| ==> links[j].id != links[k].id)
  }

  predicate IsHexDigit(c: char) {
    '0' <= c <= '9' || 'a' <= c <= 'f' || 'A' <= c <= 'F'
  }

  predicate IsHexColour(s: string) {
    |s| == 7 && s[0] == '#' && forall k :: 1 <= k < 7 ==> IsHexDigit(s[k])
  }

  predicate RouteOk(r: SavedRoute) {
    && NameOk(r.name) && RoomNamed(r.start) && RoomNamed(r.end) && r.start != r.end
    && IsHexColour(r.colour) && InRange(r.widthMm, 100000.0) && InRange(r.heightMm, 50000.0) && NoteOk(r.note)
  }

  predicate RoutesOk(routes: seq<SavedRoute>) {
    && |routes| <= MAX_ROUTES
    && (forall k :: 0 <= k < |routes| ==> PathSafe(routes[k].id) && RouteOk(routes[k]))
    && (forall j, k :: 0 <= j < k < |routes| ==> routes[j].id != routes[k].id)
  }

  predicate SourcesOk(sources: seq<ReachStart>) {
    && 1 <= |sources| <= MAX_SOURCES
    && (forall k :: 0 <= k < |sources| ==> RoomNamed(sources[k].room))
    && (forall j, k :: 0 <= j < k < |sources| ==> sources[j].room != sources[k].room)
  }

  /** The request a read of this reach would accept. */
  predicate WalkOk(limitMm: real, spacingMm: real, measure: Option<string>) {
    && 0.0 < limitMm <= MAX_LIMIT_MM && MIN_SPACING_MM <= spacingMm <= MAX_SPACING_MM
    && (measure.Some? ==> Trim(measure.value) in ["", "exact", "grid"])
  }

  predicate ReachOk(r: SavedReach) {
    NameOk(r.name) && SourcesOk(r.sources) && WalkOk(r.limitMm, r.spacingMm, r.measure) && NoteOk(r.note)
  }

  predicate ReachesOk(reaches: seq<SavedReach>) {
    && |reaches| <= MAX_REACHES
    && (forall k :: 0 <= k < |reaches| ==> PathSafe(reaches[k].id) && ReachOk(reaches[k]))
    && (forall j, k :: 0 <= j < k < |reaches| ==> reaches[j].id != reaches[k].id)
  }

  predicate PassageOk(p: Passage) {
    && RoomNamed(p.a) && RoomNamed(p.b) && p.a != p.b && p.start != p.end
    && InRange(p.widthMm, 100000.0) && InRange(p.heightMm, 50000.0) && NoteOk(p.note)
  }

  predicate PassagesOk(passages: seq<Passage>) {
    && |passages| <= MAX_PASSAGES
    && (forall k :: 0 <= k < |passages| ==> PathSafe(passages[k].id) && PassageOk(passages[k]))
    && (forall j, k :: 0 <= j < k < |passages| ==> passages[j].id != passages[k].id)
  }

  /** What all four validators have accepted. */
  predicate DocumentOk(d: Document) {
    ZonesOk(d.zones) && LinksOk(d.links) && RoutesOk(d.routes) && PassagesOk(d.passages) && ReachesOk(d.reaches)
  }

  lemma EmptyIsOk()
    ensures DocumentOk(EMPTY)
  {
  }

  // ---------------------------------------------------------------- cuts as ordered pairs

  /** The order rooms sort in: by model, then by id. */
  predicate SortsBefore(a: RoomRef, b: RoomRef) {
    Before(a.modelId, b.modelId) || (a.modelId == b.modelId && Before(a.roomId, b.roomId))
  }

  /** A cut with its lesser room first. */
  function Ordered(d: Disconnect): Disconnect {
    if d.a == d.b || SortsBefore(d.a, d.b) then d else Disconnect(d.b, d.a)
  }

  /** Sorting the two rooms loses exactly the direction: two cuts are filed as one pair when and only when
    * they join the same two rooms. */
  lemma OrderedForgetsDirection(d: Disconnect, e: Disconnect)
    ensures Ordered(d) == Ordered(e) <==> SameCut(d, e)
  {
    BeforeIsTotal(d.a.modelId, d.b.modelId);
    BeforeIsTotal(d.a.roomId, d.b.roomId);
    BeforeIsStrict(d.a.modelId, d.b.modelId);
    BeforeIsStrict(d.b.modelId, d.a.modelId);
    BeforeIsStrict(d.a.roomId, d.b.roomId);
    BeforeIsTotal(e.a.modelId, e.b.modelId);
    hide Before;
  }

  // ---------------------------------------------------------------- the validators

  method ValidateMembers(rooms: seq<RoomRef>) returns (ok: bool, members: set<RoomRef>)
    ensures ok <==> MembersOk(rooms)
    ensures ok ==> members == MemberSet(rooms)
  {
    hide Blank;
    members := {};
    for k := 0 to |rooms|
      invariant MembersOk(rooms[..k]) && members == MemberSet(rooms[..k])
    {
      assert rooms[..k + 1] == rooms[..k] + [rooms[k]];
      if Blank(rooms[k].modelId) || Blank(rooms[k].roomId) {
        return false, members;
      }
      if rooms[k] in members {
        return false, members;
      }
      members := members + {rooms[k]};
    }
    assert rooms[..|rooms|] == rooms;
    ok := true;
  }

  function OrderedSet(cuts: seq<Disconnect>): set<Disconnect> { set d | d in cuts :: Ordered(d) }

  lemma RepeatIsSeen(cuts: seq<Disconnect>, d: Disconnect)
    ensures Ordered(d) in OrderedSet(cuts) <==> exists j :: 0 <= j < |cuts| && SameCut(cuts[j], d)
  {
    hide Ordered, SameCut;
    forall j | 0 <= j < |cuts|
      ensures Ordered(cuts[j]) == Ordered(d) <==> SameCut(cuts[j], d)
    {
      OrderedForgetsDirection(cuts[j], d);
    }
  }

  method ValidateCuts(cuts: seq<Disconnect>, members: set<RoomRef>) returns (ok: bool)
    ensures ok <==> CutsOk(cuts, members)
  {
    hide Ordered, SameCut;
    var cut: set<Disconnect> := {};
    for k := 0 to |cuts|
      invariant CutsOk(cuts[..k], members) && cut == OrderedSet(cuts[..k])
    {
      assert cuts[..k + 1] == cuts[..k] + [cuts[k]];
      var d := cuts[k];
      if d.a !in members || d.b !in members {
        return false;
      }
      if d.a == d.b {
        return false;
      }
      RepeatIsSeen(cuts[..k], d);
      if Ordered(d) in cut {
        return false;
      }
      cut := cut + {Ordered(d)};
    }
    assert cuts[..|cuts|] == cuts;
    return true;
  }

  method ValidateZone(zone: OpenZone) returns (ok: bool)
    ensures ok <==> ZoneOk(zone)
  {
    hide Blank, MembersOk, CutsOk;
    if Blank(zone.name) {
      return false;
    }
    if |zone.rooms| < 2 {
      return false;
    }
    if |zone.rooms| > MAX_ROOMS_PER_ZONE {
      return false;
    }
    var distinct, members := ValidateMembers(zone.rooms);
    if !distinct {
      return false;
    }
    if |zone.disconnects| > MAX_DISCONNECTS_PER_ZONE {
      return false;
    }
    var cutsOk := ValidateCuts(zone.disconnects, members);
    if !cutsOk {
      return false;
    }
    if zone.hub.Some? && zone.hub.value !in members {
      return false;
    }
    return NoteOk(zone.note);
  }

  /** The rules for zones and links together. */
  method Validate(zones: seq<OpenZone>, links: seq<VerticalLink>) returns (ok: bool)
    ensures ok <==> ZonesOk(zones) && LinksOk(links)
  {
    hide PathSafe, Blank, ZoneOk, InRange;
    if |zones| > MAX_ZONES {
      return false;
    }
    var seen: set<string> := {};
    for k := 0 to |zones|
      invariant ZonesOk(zones[..k]) && seen == set z | z in zones[..k] :: z.id
    {
      assert zones[..k + 1] == zones[..k] + [zones[k]];
      var zone := zones[k];
      if !PathSafe(zone.id) || zone.id in seen {
        return false;
      }
      seen := seen + {zone.id};
      var zoneOk := ValidateZone(zone);
      if !zoneOk {
        return false;
      }
    }
    assert zones[..|zones|] == zones;
    ok := ValidateLinks(links);
  }

  method ValidateLinks(links: seq<VerticalLink>) returns (ok: bool)
    ensures ok <==> LinksOk(links)
  {
    hide PathSafe, Blank;
    if |links| > MAX_LINKS {
      return false;
    }
    var seen: set<string> := {};
    for k := 0 to |links|
      invariant LinksOk(links[..k]) && seen == set l | l in links[..k] :: l.id
    {
      assert links[..k + 1] == links[..k] + [links[k]];
      var link := links[k];
      if !PathSafe(link.id) || link.id in seen {
        return false;
      }
      seen := seen + {link.id};
      if Blank(link.a.modelId) || Blank(link.a.roomId) || Blank(link.b.modelId) || Blank(link.b.roomId) {
        return false;
      }
      if link.a == link.b {
        return false;
      }
      if link.costFt.Some? && (link.costFt.value <= 0.0 || link.costFt.value > MAX_LEVEL_COST_FT) {
        return false;
      }
      if link.note.Some? && |link.note.value| > MAX_NOTE_CHARS {
        return false;
      }
    }
    assert links[..|links|] == links;
    return true;
  }

  method ValidateRoutes(routes: seq<SavedRoute>) returns (ok: bool)
    ensures ok <==> RoutesOk(routes)
  {
    hide PathSafe, Blank, Trim, IsHexColour;
    if |routes| > MAX_ROUTES {
      return false;
    }
    var seen: set<string> := {};
    for k := 0 to |routes|
      invariant RoutesOk(routes[..k]) && seen == set r | r in routes[..k] :: r.id
    {
      assert routes[..k + 1] == routes[..k] + [routes[k]];
      var route := routes[k];
      if !PathSafe(route.id) || route.id in seen {
        return false;
      }
      seen := seen + {route.id};
      var name := Trim(route.name);
      if name == "" || |name| > MAX_NAME_CHARS {
        return false;
      }
      if Blank(route.start.modelId) || Blank(route.start.roomId) || Blank(route.end.modelId) || Blank(route.end.roomId) {
        return false;
      }
      if route.start == route.end {
        return false;
      }
      if !IsHexColour(route.colour) {
        return false;
      }
      if route.widthMm.Some? && (route.widthMm.value <= 0.0 || route.widthMm.value > 100000.0) {
        return false;
      }
      if route.heightMm.Some? && (route.heightMm.value <= 0.0 || route.heightMm.value > 50000.0) {
        return false;
      }
      if route.note.Some? && |route.note.value| > MAX_NOTE_CHARS {
        return false;
      }
    }
    assert routes[..|routes|] == routes;
    return true;
  }

  method ValidateSources(sources: seq<ReachStart>) returns (ok: bool)
    ensures ok <==> SourcesOk(sources)
  {
    hide Blank;
    if sources == [] || |sources| > MAX_SOURCES {
      return false;
    }
    var rooms: set<RoomRef> := {};
    for k := 0 to |sources|
      invariant k > 0 ==> SourcesOk(sources[..k])
      invariant rooms == set s | s in sources[..k] :: s.room
    {
      assert sources[..k + 1] == sources[..k] + [sources[k]];
      var room := sources[k].room;
      if Blank(room.modelId) || Blank(room.roomId) {
        return false;
      }
      if room in rooms {
        return false;
      }
      rooms := rooms + {room};
    }
    assert sources[..|sources|] == sources;
    return true;
  }

  method ValidateReaches(reaches: seq<SavedReach>) returns (ok: bool)
    ensures ok <==> ReachesOk(reaches)
  {
    hide PathSafe, Trim, SourcesOk;
    if |reaches| > MAX_REACHES {
      return false;
    }
    var seen: set<string> := {};
    for k := 0 to |reaches|
      invariant ReachesOk(reaches[..k]) && seen == set r | r in reaches[..k] :: r.id
    {
      assert reaches[..k + 1] == reaches[..k] + [reaches[k]];
      var reach := reaches[k];
      if !PathSafe(reach.id) || reach.id in seen {
        return false;
      }
      seen := seen + {reach.id};
      var name := Trim(reach.name);
      if name == "" || |name| > MAX_NAME_CHARS {
        return false;
      }
      var sourcesOk := ValidateSources(reach.sources);
      if !sourcesOk {
        return false;
      }
      if reach.limitMm <= 0.0 || reach.limitMm > MAX_LIMIT_MM {
        return false;
      }
      if reach.spacingMm < MIN_SPACING_MM || reach.spacingMm > MAX_SPACING_MM {
        return false;
      }
      if reach.measure.Some? && Trim(reach.measure.value) !in ["", "exact", "grid"] {
        return false;
      }
      if reach.note.Some? && |reach.note.value| > MAX_NOTE_CHARS {
        return false;
      }
    }
    assert reaches[..|reaches|] == reaches;
    return true;
  }

  method ValidatePassages(passages: seq<Passage>) returns (ok: bool)
    ensures ok <==> PassagesOk(passages)
  {
    hide PathSafe, Blank;
    if |passages| > MAX_PASSAGES {
      return false;
    }
    var seen: set<string> := {};
    for k := 0 to |passages|
      invariant PassagesOk(passages[..k]) && seen == set p | p in passages[..k] :: p.id
    {
      assert passages[..k + 1] == passages[..k] + [passages[k]];
      var p := passages[k];
      if !PathSafe(p.id) || p.id in seen {
        return false;
      }
      seen := seen + {p.id};
      if Blank(p.a.modelId) || Blank(p.a.roomId) || Blank(p.b.modelId) || Blank(p.b.roomId) {
        return false;
      }
      if p.a == p.b {
        return false;
      }
      if p.start == p.end {
        return false;
      }
      if p.widthMm.Some? && (p.widthMm.value <= 0.0 || p.widthMm.value > 100000.0) {
        return false;
      }
      if p.heightMm.Some? && (p.heightMm.value <= 0.0 || p.heightMm.value > 50000.0) {
        return false;
      }
      if p.note.Some? && |p.note.value| > MAX_NOTE_CHARS {
        return false;
      }
    }
    assert passages[..|passages|] == passages;
    return true;
  }
}
