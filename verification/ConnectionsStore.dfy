/** The connections store as it runs: a save resolves and validates its request, then under the lock loads
  * the document, compares versions, and writes the new document to the disk. Proved to do what
  * ConnectionRuns.Step says, so what is proved there of runs holds of it.
  */
module ConnectionsStore {

  import opened Wrappers
  import opened Text
  import opened Connections
  import opened RoomResolver
  import opened ConnectionRuns
  import opened Backups
  import opened D = Disk
  import Ids

  /** Resolve and validate a request: list by list, and before the lock. */
  method PrepareRequest(project: string, request: SaveRequest, listings: Listings) returns (r: Result<Prepared, SaveError>)
    ensures r == Prepare(project, request, listings)
  {
    hide PathSafe, ZonesOk, LinksOk, RoutesOk, PassagesOk, ReachesOk, Resolve, ResolveRoutes, ResolvePassages, ResolveReaches;
    if !PathSafe(project) {
      return Err(Invalid);
    }
    var joined := Resolve(listings.joined, request.zones, request.links);
    if joined.Err? {
      return Err(joined.error);
    }
    var (zones, links) := joined.value;
    var joinedOk := Validate(zones, links);
    if !joinedOk {
      return Err(Invalid);
    }
    var routes := ResolveRoutes(listings.routes, request.routes);
    if routes.Err? {
      return Err(routes.error);
    }
    if routes.value.Some? {
      var routesOk := ValidateRoutes(routes.value.value);
      if !routesOk {
        return Err(Invalid);
      }
    }
    var passages := ResolvePassages(listings.passages, request.passages);
    if passages.Err? {
      return Err(passages.error);
    }
    if passages.value.Some? {
      var passagesOk := ValidatePassages(passages.value.value);
      if !passagesOk {
        return Err(Invalid);
      }
    }
    var reaches := ResolveReaches(listings.reaches, request.reaches);
    if reaches.Err? {
      return Err(reaches.error);
    }
    if reaches.value.Some? {
      var reachesOk := ValidateReaches(reaches.value.value);
      if !reachesOk {
        return Err(Invalid);
      }
    }
    return Ok(Prepared(zones, links, routes.value, passages.value, reaches.value));
  }

  class ConnectionsStore {
    const disk: Disk<Document>

    ghost predicate Valid()
      reads this, disk
    {
      disk.Valid() && AllWhole(disk.fs.live)
    }

    /** The documents a reader finds, by project. */
    ghost function Docs(): (docs: map<string, Document>)
      reads this, disk
      requires Valid()
      ensures docs.Keys == disk.fs.live.Keys
    {
      Documents(disk.fs.live)
    }

    /** Whether the disk will take a write of this project's document. */
    ghost predicate Takes(project: string, world: World)
      reads this, disk
    {
      && world.fault != TempFails && world.fault != InstallFails
      && (project in disk.fs.live ==>
            world.fault != CopyFails && BackupName(Ids.ConnectionsStem(project), world.stamp, "json") !in disk.fs.backups)
    }

    /** The store opened on a disk, new or found after a restart. */
    constructor (disk: Disk<Document>)
      requires disk.Valid() && AllWhole(disk.fs.live)
      ensures Valid() && Docs() == Documents(disk.fs.live) && this.disk == disk
    {
      this.disk := disk;
    }

    /** The project's document, or the empty one; no lock is taken. */
    method LoadDocument(project: string) returns (r: Result<Document, SaveError>)
      requires Valid()
      ensures r == Load(Docs(), project)
    {
      if !PathSafe(project) {
        return Err(Invalid);
      }
      if project !in disk.fs.live {
        return Ok(EMPTY);
      }
      return Ok(disk.fs.live[project].doc);
    }

    /** Write a document: `saved` is false when the disk refuses, and then nothing has changed. */
    method Write(project: string, document: Document, world: World) returns (saved: bool)
      requires Valid()
      modifies disk
      ensures Valid()
      ensures saved <==> old(Takes(project, world))
      ensures Docs() == if saved then old(Docs())[project := document] else old(Docs())
      ensures CutsClean(disk.journal, |old(disk.journal)|, old(Docs()), old(Docs())[project := document])
    {
      hide CutsClean, SafePoint, CopyFirst, BackupName, Kept, OneStepEach;
      ghost var before, from := disk.fs, |disk.journal|;
      saved := disk.Save(project, Ids.ConnectionsStem(project), "json", document, world.stamp, world.fault, world.stuck);
      SafePointsCutClean(before, Put(project, document), Ids.ConnectionsStem(project), "json", BackupName(Ids.ConnectionsStem(project), world.stamp, "json"),
                         disk.journal, from);
    }

    method Save(project: string, request: SaveRequest, listings: Listings, world: World) returns (r: Result<Document, SaveError>)
      requires Valid()
      modifies disk
      ensures Valid()
      ensures r == Answer(old(Docs()), ConnectionRuns.Save(project, request, listings, world.clock, old(Takes(project, world))))
      ensures Docs() == Step(old(Docs()), ConnectionRuns.Save(project, request, listings, world.clock, old(Takes(project, world))))
      ensures CutsClean(disk.journal, |old(disk.journal)|, old(Docs()),
                        Step(old(Docs()), ConnectionRuns.Save(project, request, listings, world.clock, true)))
    {
      hide OneStepEach, BackupName, PathSafe, NextStamp, Prepare, CutsClean;
      NothingToCut(disk.journal);
      var prepared := PrepareRequest(project, request, listings);
      if prepared.Err? {
        return Err(prepared.error);
      }
      PreparedIsSafe(project, request, listings);
      var loaded := LoadDocument(project);
      if loaded.Err? {
        return loaded;
      }
      var current := loaded.value;
      if current.takenAt != request.base {
        return Err(Conflict);
      }
      var takenAt := NextStamp(current.takenAt, world.clock);
      var p := prepared.value;
      var routes := Or(p.routes, current.routes);
      var passages := Or(p.passages, current.passages);
      var reaches := Or(p.reaches, current.reaches);
      var document := Document(takenAt, p.zones, p.links, routes, passages, reaches);
      var saved := Write(project, document, world);
      r := if saved then Ok(document) else Err(Internal);
    }
  }

  lemma PreparedIsSafe(project: string, request: SaveRequest, listings: Listings)
    requires Prepare(project, request, listings).Ok?
    ensures PathSafe(project)
  {
    hide PathSafe, ZonesOk, LinksOk, RoutesOk, PassagesOk, ReachesOk, Resolve, ResolveRoutes, ResolvePassages, ResolveReaches;
  }
}
