/** Runs of saves of the connections document: any number of projects and clients, each client's read as
  * stale as it likes, any clock, and a write that can fail. A document is replaced whole, and a list the
  * request does not carry is kept.
  */
module ConnectionRuns {

  import opened Wrappers
  import opened Text
  import opened Connections
  import opened RoomResolver
  import opened ResolvedAgain

  /** A save's body. For the last three lists, absent means "keep what is saved". */
  datatype SaveRequest = SaveRequest(base: string, zones: seq<ZoneInput>, links: seq<LinkInput>,
                                     routes: Option<seq<RouteInput>>, passages: Option<seq<PassageInput>>,
                                     reaches: Option<seq<ReachInput>>)

  /** What each read of the project's rooms would answer: the four lists read them one after another. */
  datatype Listings = Listings(joined: Listing, routes: Listing, passages: Listing, reaches: Listing)

  /** A request resolved and validated, before the lock is taken. */
  datatype Prepared = Prepared(zones: seq<OpenZone>, links: seq<VerticalLink>, routes: Option<seq<SavedRoute>>,
                               passages: Option<seq<Passage>>, reaches: Option<seq<SavedReach>>)

  ghost predicate PreparedOk(p: Prepared) {
    && ZonesOk(p.zones) && LinksOk(p.links) && ZonesTidy(p.zones)
    && (p.routes.Some? ==> RoutesOk(p.routes.value) && RoutesTidy(p.routes.value))
    && (p.passages.Some? ==> PassagesOk(p.passages.value))
    && (p.reaches.Some? ==> ReachesOk(p.reaches.value) && ReachesTidy(p.reaches.value))
  }

  function Prepare(project: string, request: SaveRequest, listings: Listings): Result<Prepared, SaveError> {
    if !PathSafe(project) then Err(Invalid)
    else
      var joined := Resolve(listings.joined, request.zones, request.links);
      if joined.Err? then Err(joined.error)
      else if !ZonesOk(joined.value.0) || !LinksOk(joined.value.1) then Err(Invalid)
      else
        var routes := ResolveRoutes(listings.routes, request.routes);
        if routes.Err? then Err(routes.error)
        else if routes.value.Some? && !RoutesOk(routes.value.value) then Err(Invalid)
        else
          var passages := ResolvePassages(listings.passages, request.passages);
          if passages.Err? then Err(passages.error)
          else if passages.value.Some? && !PassagesOk(passages.value.value) then Err(Invalid)
          else
            var reaches := ResolveReaches(listings.reaches, request.reaches);
            if reaches.Err? then Err(reaches.error)
            else if reaches.value.Some? && !ReachesOk(reaches.value.value) then Err(Invalid)
            else Ok(Prepared(joined.value.0, joined.value.1, routes.value, passages.value, reaches.value))
  }

  lemma PreparedIsOk(project: string, request: SaveRequest, listings: Listings)
    requires Prepare(project, request, listings).Ok?
    ensures PreparedOk(Prepare(project, request, listings).value)
    ensures Prepare(project, request, listings).value.routes.Some? <==> request.routes.Some?
    ensures Prepare(project, request, listings).value.passages.Some? <==> request.passages.Some?
    ensures Prepare(project, request, listings).value.reaches.Some? <==> request.reaches.Some?
  {
    ZonesComeTidy(listings.joined, request.zones, request.links);
    if request.routes.Some? {
      RoutesComeTidy(listings.routes, request.routes);
    }
    if request.reaches.Some? {
      ReachesComeTidy(listings.reaches, request.reaches);
    }
    hide PathSafe, ZonesOk, LinksOk, RoutesOk, PassagesOk, ReachesOk, ZonesTidy, RoutesTidy, ReachesTidy, Resolve, Collect, IndexFor, AnyUnnamed, RoomsOf;
  }

  function RoomsIn(listing: Listing): seq<RoomRef> { if listing.Ok? then listing.value else [] }

  /** What reaches the lock is what was asked: every list in place, every room of it the room named, and the lists
    * left out still left out. */
  lemma PreparedIsAsked(project: string, request: SaveRequest, listings: Listings)
    requires Prepare(project, request, listings).Ok?
    ensures var p := Prepare(project, request, listings).value;
            && |p.zones| == |request.zones| && |p.links| == |request.links|
            && (forall k :: 0 <= k < |p.zones| ==> ZoneRefers(RoomsIn(listings.joined), request.zones[k], p.zones[k]))
            && (forall k :: 0 <= k < |p.links| ==> LinkRefers(RoomsIn(listings.joined), request.links[k], p.links[k]))
            && (p.routes.Some? <==> request.routes.Some?)
            && (p.routes.Some? ==>
                  && |p.routes.value| == |request.routes.value|
                  && forall k :: 0 <= k < |p.routes.value| ==>
                       RouteRefers(RoomsIn(listings.routes), request.routes.value[k], p.routes.value[k]))
            && (p.passages.Some? <==> request.passages.Some?)
            && (p.passages.Some? ==>
                  && |p.passages.value| == |request.passages.value|
                  && forall k :: 0 <= k < |p.passages.value| ==>
                       PassageRefers(RoomsIn(listings.passages), request.passages.value[k], p.passages.value[k]))
            && (p.reaches.Some? <==> request.reaches.Some?)
            && (p.reaches.Some? ==>
                  && |p.reaches.value| == |request.reaches.value|
                  && forall k :: 0 <= k < |p.reaches.value| ==>
                       ReachRefers(RoomsIn(listings.reaches), request.reaches.value[k], p.reaches.value[k]))
  {
    hide PathSafe, ZonesOk, LinksOk, RoutesOk, PassagesOk, ReachesOk, Resolve, ResolveRoutes, ResolvePassages, ResolveReaches,
         ZoneRefers, LinkRefers, RouteRefers, PassageRefers, ReachRefers;
    ResolvedAreAsked(listings.joined, request.zones, request.links);
    RoutesAreAsked(listings.routes, request.routes);
    PassagesAreAsked(listings.passages, request.passages);
    ReachesAreAsked(listings.reaches, request.reaches);
  }

  ghost predicate LinkRefers(rooms: seq<RoomRef>, l: LinkInput, out: VerticalLink) {
    && Refers(rooms, l.a, out.a) && Refers(rooms, l.b, out.b)
    && out.id == l.id && out.costFt == l.costFt && out.note == l.note
  }

  lemma ResolvedAreAsked(listing: Listing, zones: seq<ZoneInput>, links: seq<LinkInput>)
    requires Resolve(listing, zones, links).Ok?
    ensures var (zonesOut, linksOut) := Resolve(listing, zones, links).value;
            && |zonesOut| == |zones| && |linksOut| == |links|
            && (forall k :: 0 <= k < |zones| ==> ZoneRefers(RoomsIn(listing), zones[k], zonesOut[k]))
            && (forall k :: 0 <= k < |links| ==> LinkRefers(RoomsIn(listing), links[k], linksOut[k]))
  {
    hide Resolve, ZoneRefers, Refers;
    ResolvedIsAsked(listing, zones, links);
  }

  /** Every room of the list names its model or is alone under its id among the project's rooms. */
  ghost predicate Findable(rooms: seq<RoomRef>, needed: seq<RoomInput>) {
    forall r :: r in needed ==> Named(r) || Unique(rooms, r.roomId)
  }

  /** Where the project's rooms can be read, a request is refused only for its project's name, for a room that cannot
    * be found, or for a list that breaks its rules. */
  lemma PrepareSucceedsWhen(project: string, request: SaveRequest, joined: seq<RoomRef>, routes: seq<RoomRef>,
                            passages: seq<RoomRef>, reaches: seq<RoomRef>)
    ensures var listings := Listings(Ok(joined), Ok(routes), Ok(passages), Ok(reaches));
            var needed := RoomsNamed(request.zones, request.links);
            Prepare(project, request, listings).Ok? <==>
              && PathSafe(project)
              && (forall r :: r in needed ==> Named(r) || (Unique(joined, r.roomId) && AnyWithoutModel(needed)))
              && (request.routes.Some? ==> Findable(routes, RoomsOf(request.routes.value, RouteRooms)))
              && (request.passages.Some? ==> Findable(passages, RoomsOf(request.passages.value, PassageRooms)))
              && (request.reaches.Some? ==> Findable(reaches, RoomsOf(request.reaches.value, ReachRooms)))
              && KeepsRules(request, listings)
  {
    hide PathSafe, ZonesOk, LinksOk, RoutesOk, PassagesOk, ReachesOk, Resolve, ResolveRoutes, ResolvePassages, ResolveReaches,
         Named, Unique, RoomsNamed, RoomsOf, AnyWithoutModel;
    ZonesResolveWhen(joined, request.zones, request.links);
    ListsStay(Listings(Ok(joined), Ok(routes), Ok(passages), Ok(reaches)), request);
    if request.routes.Some? {
      RoutesResolveWhen(routes, request.routes.value);
    }
    if request.passages.Some? {
      PassagesResolveWhen(passages, request.passages.value);
    }
    if request.reaches.Some? {
      ReachesResolveWhen(reaches, request.reaches.value);
    }
  }

  /** The lists of the request, resolved, meet the rules a saved document meets. */
  ghost predicate KeepsRules(request: SaveRequest, listings: Listings) {
    var joined := Resolve(listings.joined, request.zones, request.links);
    var routes := ResolveRoutes(listings.routes, request.routes);
    var passages := ResolvePassages(listings.passages, request.passages);
    var reaches := ResolveReaches(listings.reaches, request.reaches);
    && (joined.Ok? ==> ZonesOk(joined.value.0) && LinksOk(joined.value.1))
    && (routes.Ok? && routes.value.Some? ==> RoutesOk(routes.value.value))
    && (passages.Ok? && passages.value.Some? ==> PassagesOk(passages.value.value))
    && (reaches.Ok? && reaches.value.Some? ==> ReachesOk(reaches.value.value))
  }

  /** A list left out resolves to none, and one given to some. */
  lemma ListsStay(listings: Listings, request: SaveRequest)
    ensures request.routes.None? ==> ResolveRoutes(listings.routes, request.routes) == Ok(None)
    ensures request.passages.None? ==> ResolvePassages(listings.passages, request.passages) == Ok(None)
    ensures request.reaches.None? ==> ResolveReaches(listings.reaches, request.reaches) == Ok(None)
    ensures var r := ResolveRoutes(listings.routes, request.routes); request.routes.Some? && r.Ok? ==> r.value.Some?
    ensures var r := ResolvePassages(listings.passages, request.passages); request.passages.Some? && r.Ok? ==> r.value.Some?
    ensures var r := ResolveReaches(listings.reaches, request.reaches); request.reaches.Some? && r.Ok? ==> r.value.Some?
  {
    hide RoomsOf, Collect;
  }

  function Or<T>(given: Option<T>, kept: T): T { if given.Some? then given.value else kept }

  /** What runs under the lock: a conflict unless the base is current, else the next document. */
  function Commit(current: Document, base: string, p: Prepared, clock: string): Result<Document, SaveError> {
    if current.takenAt != base then Err(Conflict)
    else Ok(Document(NextStamp(current.takenAt, clock), p.zones, p.links, Or(p.routes, current.routes),
                     Or(p.passages, current.passages), Or(p.reaches, current.reaches)))
  }

  type Docs = map<string, Document>

  /** A project that is not in the store yet reads as `EMPTY`. */
  function Current(docs: Docs, project: string): Document {
    if project in docs then docs[project] else EMPTY
  }

  function Load(docs: Docs, project: string): Result<Document, SaveError> {
    if PathSafe(project) then Ok(Current(docs, project)) else Err(Invalid)
  }

  /** One save as it reaches the store; `saved` is whether the disk takes the write. */
  datatype Save = Save(project: string, request: SaveRequest, listings: Listings, clock: string, saved: bool)

  function Answer(docs: Docs, s: Save): Result<Document, SaveError> {
    var p := Prepare(s.project, s.request, s.listings);
    if p.Err? then Err(p.error)
    else
      var r := Commit(Current(docs, s.project), s.request.base, p.value, s.clock);
      if r.Ok? && !s.saved then Err(Internal) else r
  }

  function Step(docs: Docs, s: Save): Docs {
    var r := Answer(docs, s);
    if r.Ok? then docs[s.project := r.value] else docs
  }

  ghost predicate Run(states: seq<Docs>, saves: seq<Save>) {
    && |states| == |saves| + 1
    && states[0] == map[]
    && forall k :: 0 <= k < |saves| ==> states[k + 1] == Step(states[k], saves[k])
  }

  // ---------------------------------------------------------------- runs cut off by crashes

  /** A run in which any save may be cut off anywhere: a restart finds the documents as they were, or as the
    * save makes them. */
  ghost predicate CutRun(states: seq<Docs>, asked: seq<Save>) {
    && |states| == |asked| + 1
    && states[0] == map[]
    && forall k :: 0 <= k < |asked| ==> states[k + 1] == states[k] || states[k + 1] == Step(states[k], asked[k].(saved := true))
  }

  /** The saves with the disk's answers that a restart found. */
  function Settled(states: seq<Docs>, asked: seq<Save>): (saves: seq<Save>)
    requires |states| == |asked| + 1
    ensures |saves| == |asked|
  {
    seq(|asked|, k requires 0 <= k < |asked| => asked[k].(saved := states[k + 1] != states[k]))
  }

  lemma FailedSaveKeeps(docs: Docs, s: Save)
    requires !s.saved
    ensures Step(docs, s) == docs
  {
    hide Prepare, Commit;
  }

  /** A run cut off and restarted any number of times is a run, so everything said here of runs holds of it. */
  lemma CutRunIsRun(states: seq<Docs>, asked: seq<Save>)
    requires CutRun(states, asked)
    ensures Run(states, Settled(states, asked))
  {
    hide Step;
    var saves := Settled(states, asked);
    forall k | 0 <= k < |saves|
      ensures states[k + 1] == Step(states[k], saves[k])
    {
      if states[k + 1] == states[k] {
        FailedSaveKeeps(states[k], saves[k]);
      }
    }
  }

  // ---------------------------------------------------------------- every reachable document is valid

  ghost predicate Sound(d: Document) {
    DocumentOk(d) && ZonesTidy(d.zones) && RoutesTidy(d.routes) && ReachesTidy(d.reaches)
  }

  lemma CommitIsSound(current: Document, base: string, p: Prepared, clock: string)
    requires Sound(current) && PreparedOk(p) && Commit(current, base, p, clock).Ok?
    ensures Sound(Commit(current, base, p, clock).value)
    ensures Before(current.takenAt, Commit(current, base, p, clock).value.takenAt)
  {
    NextStampGrows(current.takenAt, clock);
    hide ZonesOk, LinksOk, RoutesOk, PassagesOk, ReachesOk, ZonesTidy, RoutesTidy, ReachesTidy, NextStamp;
  }

  /** Every document any run of saves can reach passes all four validators. */
  lemma {:induction false} ReachableIsSound(states: seq<Docs>, saves: seq<Save>, project: string, k: nat)
    requires Run(states, saves) && k < |states|
    ensures Sound(Current(states[k], project))
  {
    hide Sound, Prepare, Commit, PreparedOk;
    if k == 0 {
      EmptyIsSound();
    } else {
      ReachableIsSound(states, saves, project, k - 1);
      var s := saves[k - 1];
      if Answer(states[k - 1], s).Ok? && s.project == project {
        PreparedIsOk(project, s.request, s.listings);
        CommitIsSound(Current(states[k - 1], project), s.request.base, Prepare(project, s.request, s.listings).value, s.clock);
      }
    }
  }

  lemma EmptyIsSound()
    ensures Sound(EMPTY)
  {
    EmptyIsOk();
    hide DocumentOk;
  }

  // ---------------------------------------------------------------- no lost update

  /** Versions never go back, and two states with one version are one state. */
  ghost predicate Grew(earlier: Document, later: Document) {
    NotAfter(earlier.takenAt, later.takenAt) && (earlier.takenAt == later.takenAt ==> earlier == later)
  }

  lemma SaveGrows(docs: Docs, s: Save, project: string)
    ensures Grew(Current(docs, project), Current(Step(docs, s), project))
    ensures Answer(docs, s).Ok? ==> Before(Current(docs, s.project).takenAt, Current(Step(docs, s), s.project).takenAt)
  {
    hide Prepare, NextStamp;
    NextStampGrows(Current(docs, s.project).takenAt, s.clock);
    BeforeIsStrict(Current(docs, project).takenAt, Current(Step(docs, s), project).takenAt);
  }

  /** Along a run a project's document only moves forward, and a version stamp names one document: the
    * empty stamp, before the first save, the empty document. */
  lemma {:induction false} VersionsGrow(states: seq<Docs>, saves: seq<Save>, project: string, i: nat, j: nat)
    requires Run(states, saves) && i <= j < |states|
    ensures Grew(Current(states[i], project), Current(states[j], project))
    decreases j
  {
    if i < j {
      hide Step, Current;
      VersionsGrow(states, saves, project, i, j - 1);
      SaveGrows(states[j - 1], saves[j - 1], project);
      var a, b, c := Current(states[i], project), Current(states[j - 1], project), Current(states[j], project);
      NotAfterIsTransitive(a.takenAt, b.takenAt, c.takenAt);
      BeforeIsStrict(a.takenAt, b.takenAt);
      BeforeIsStrict(b.takenAt, c.takenAt);
      hide Before;
    }
  }

  /** A save whose base was read in any earlier state, however stale, goes through only if the document is
    * that state still; otherwise it is a conflict. The empty base is no exception once anything is saved. */
  lemma SaveActsOnWhatWasRead(states: seq<Docs>, saves: seq<Save>, read: nat, at: nat)
    requires Run(states, saves) && read <= at < |saves|
    requires saves[at].request.base == Current(states[read], saves[at].project).takenAt
    requires Prepare(saves[at].project, saves[at].request, saves[at].listings).Ok? && saves[at].saved
    ensures var was, now := Current(states[read], saves[at].project), Current(states[at], saves[at].project);
            Answer(states[at], saves[at]) == (if now == was then Answer(states[read], saves[at]) else Err(Conflict))
            && (now == was ==> Answer(states[at], saves[at]).Ok?)
  {
    hide Prepare, Current, NextStamp;
    VersionsGrow(states, saves, saves[at].project, read, at);
    hide Run;
  }

  /** Once any save of a project has gone through, a save from before it, the empty base included, is a
    * conflict for ever. */
  lemma StaleBaseConflicts(states: seq<Docs>, saves: seq<Save>, read: nat, between: nat, at: nat)
    requires Run(states, saves) && read <= between < at < |saves|
    requires saves[between].project == saves[at].project && Answer(states[between], saves[between]).Ok?
    requires saves[at].request.base == Current(states[read], saves[at].project).takenAt
    ensures Answer(states[at], saves[at]).Err?
    ensures Prepare(saves[at].project, saves[at].request, saves[at].listings).Ok? ==> Answer(states[at], saves[at]) == Err(Conflict)
    ensures Step(states[at], saves[at]) == states[at]
  {
    hide Prepare, Current, NextStamp;
    var project := saves[at].project;
    VersionsGrow(states, saves, project, read, between);
    assert states[between + 1] == Step(states[between], saves[between]);
    SaveGrows(states[between], saves[between], project);
    VersionsGrow(states, saves, project, between + 1, at);
    StaleIsPassed(Current(states[read], project).takenAt, Current(states[between], project).takenAt,
                  Current(states[between + 1], project).takenAt, Current(states[at], project).takenAt);
    hide Run, Before;
  }

  lemma StaleIsPassed(a: string, b: string, c: string, d: string)
    requires NotAfter(a, b) && Before(b, c) && NotAfter(c, d)
    ensures a != d
  {
    BeforeIsStrict(b, c);
    if a == d {
      NotAfterIsTransitive(c, d, b);
    }
  }

  // ---------------------------------------------------------------- absent lists are kept

  /** The five lists of a document. A request always carries the first two and may leave the others out. */
  datatype List = Zones | Links | Routes | Passages | Reaches

  predicate Names(request: SaveRequest, list: List) {
    match list
    case Zones => true
    case Links => true
    case Routes => request.routes.Some?
    case Passages => request.passages.Some?
    case Reaches => request.reaches.Some?
  }

  /** The document holds, for this list, what the save prepared. */
  predicate Holds(d: Document, p: Prepared, list: List) {
    match list
    case Zones => p.zones == d.zones
    case Links => p.links == d.links
    case Routes => p.routes == Some(d.routes)
    case Passages => p.passages == Some(d.passages)
    case Reaches => p.reaches == Some(d.reaches)
  }

  predicate Lacks(d: Document, list: List) {
    match list
    case Zones => d.zones == []
    case Links => d.links == []
    case Routes => d.routes == []
    case Passages => d.passages == []
    case Reaches => d.reaches == []
  }

  predicate SameList(d: Document, e: Document, list: List) {
    match list
    case Zones => d.zones == e.zones
    case Links => d.links == e.links
    case Routes => d.routes == e.routes
    case Passages => d.passages == e.passages
    case Reaches => d.reaches == e.reaches
  }

  /** Save j went through for this project and named this list. */
  ghost predicate NamedBy(states: seq<Docs>, saves: seq<Save>, project: string, list: List, j: nat)
    requires |states| == |saves| + 1 && j < |saves|
  {
    saves[j].project == project && Names(saves[j].request, list) && Answer(states[j], saves[j]).Ok?
  }

  lemma SaveKeepsLists(docs: Docs, s: Save, list: List)
    requires Answer(docs, s).Ok?
    ensures var after := Current(Step(docs, s), s.project);
            if Names(s.request, list) then Holds(after, Prepare(s.project, s.request, s.listings).value, list)
            else SameList(Current(docs, s.project), after, list)
  {
    PreparedIsOk(s.project, s.request, s.listings);
    hide Prepare, PreparedOk, NextStamp;
  }

  /** In every state of every run each list is what the last successful save that named it prepared, and
    * empty if none ever did: a save replaces all it carries, and a client that leaves a list out never
    * deletes it. */
  lemma {:induction false} ListsAreTheLastNamed(states: seq<Docs>, saves: seq<Save>, project: string, list: List, k: nat)
    returns (last: Option<nat>)
    requires Run(states, saves) && k < |states|
    ensures last.None? ==>
              && Lacks(Current(states[k], project), list)
              && forall j :: 0 <= j < k ==> !NamedBy(states, saves, project, list, j)
    ensures last.Some? ==>
              && last.value < k && NamedBy(states, saves, project, list, last.value)
              && Holds(Current(states[k], project),
                       Prepare(project, saves[last.value].request, saves[last.value].listings).value, list)
              && forall j :: last.value < j < k ==> !NamedBy(states, saves, project, list, j)
  {
    hide Prepare, Commit, Answer, Names;
    if k == 0 {
      last := None;
    } else {
      var before := ListsAreTheLastNamed(states, saves, project, list, k - 1);
      var s := saves[k - 1];
      if Answer(states[k - 1], s).Ok? && s.project == project {
        SaveKeepsLists(states[k - 1], s, list);
        last := if Names(s.request, list) then Some(k - 1) else before;
      } else {
        last := before;
      }
    }
  }

  // ---------------------------------------------------------------- read, change nothing, save

  /** The save a client makes of the document it read, with every list as it read it. */
  function SavedBack(d: Document): SaveRequest {
    SaveRequest(d.takenAt, Each(d.zones, ZoneAsInput), Each(d.links, LinkAsInput), Some(Each(d.routes, RouteAsInput)),
                Some(Each(d.passages, PassageAsInput)), Some(Each(d.reaches, ReachAsInput)))
  }

  /** A document any run can reach can always be saved back as it was read: nothing in it is refused, even
    * when the rooms it names have left the model or the model cannot be read, and nothing but its version
    * changes. */
  lemma SavingBackKeepsEverything(states: seq<Docs>, saves: seq<Save>, project: string, k: nat, listings: Listings, clock: string)
    requires Run(states, saves) && k < |states| && PathSafe(project)
    ensures var d := Current(states[k], project);
            Answer(states[k], Save(project, SavedBack(d), listings, clock, true))
              == Ok(d.(takenAt := NextStamp(d.takenAt, clock)))
  {
    ReachableIsSound(states, saves, project, k);
    hide Run, ZonesOk, LinksOk, RoutesOk, PassagesOk, ReachesOk, ZonesTidy, RoutesTidy, ReachesTidy,
         Resolve, ResolveRoutes, ResolvePassages, ResolveReaches, NextStamp, PathSafe, Each;
    var d := Current(states[k], project);
    ZonesComeBack(listings.joined, d.zones, d.links);
    RoutesComeBack(listings.routes, d.routes);
    PassagesComeBack(listings.passages, d.passages);
    ReachesComeBack(listings.reaches, d.reaches);
  }
}
