/** The assignment store of one project, as it runs. */
module AssignmentStore {

  import opened Wrappers
  import opened Text
  import opened Blueprints
  import opened Assignments
  import opened Backups
  import opened D = Disk
  import B = BlueprintStore
  import Ids

  class AssignmentStore {
    const project: string
    const disk: Disk<Assignment>
    var counter: nat

    ghost predicate Valid()
      reads this, disk
    {
      disk.Valid() && AllWhole(disk.fs.live) && Assignments.StoreOk(Table())
    }

    ghost function Table(): (table: map<string, Assignment>)
      reads this, disk
      requires AllWhole(disk.fs.live)
      ensures table.Keys == disk.fs.live.Keys
    {
      Documents(disk.fs.live)
    }

    ghost predicate Takes(id: string, world: World)
      reads this, disk
    {
      && world.fault != TempFails && world.fault != InstallFails
      && (id in disk.fs.live ==>
            world.fault != CopyFails && BackupName(Ids.AssignmentStem(project, id), world.stamp, "json") !in disk.fs.backups)
    }

    /** The store opened on a disk, new or found after a restart. */
    constructor (project: string, disk: Disk<Assignment>)
      requires disk.Valid() && AllWhole(disk.fs.live) && Assignments.StoreOk(Documents(disk.fs.live))
      ensures Valid() && Table() == Documents(disk.fs.live) && this.project == project && this.disk == disk
    {
      this.project := project;
      this.disk := disk;
      counter := 0;
    }

    /** `list_raw`, looking for the room's assignment. */
    method FindRoom(room: RoomKey) returns (found: Option<string>)
      requires Valid()
      ensures found == AssignmentOf(Table(), room)
      ensures found.Some? ==> found.value in disk.fs.live && disk.fs.live[found.value] == Whole(Table()[found.value])
    {
      hide AssignmentOk;
      var rest := disk.fs.live.Keys;
      while rest != {}
        invariant rest <= disk.fs.live.Keys
        invariant forall id :: id in disk.fs.live && id !in rest ==> Table()[id].room != room
        decreases rest
      {
        var id :| id in rest;
        if disk.fs.live[id].doc.room == room {
          assert Table()[id].room == room;
          return Some(id);
        }
        rest := rest - {id};
      }
      return None;
    }

    /** What `assign` does before it takes the lock: check the request and pin a revision of the blueprint
      * as it is read now. */
    method PrepareRequest(request: AssignRequest, blueprints: B.BlueprintStore) returns (r: Result<Prepared, StoreError>)
      requires blueprints.Valid()
      ensures r == Prepare(request, Load(blueprints.Docs(), blueprints.project, request.blueprintId))
    {
      hide CleanMapping, OverridesOk, KeptOverrides, NoteOk, Blank, RevisionOf;
      if Blank(request.room.roomId) || Blank(request.room.modelId) {
        return Err(Invalid);
      }
      var mapping := CleanMapping(request.mapping);
      if mapping.Err? {
        return Err(Invalid);
      }
      var overrides: Option<seq<ItemOverride>> := None;
      if request.overrides.Some? {
        var cleaned := CleanOverrides(request.overrides.value);
        if cleaned.Err? {
          return Err(Invalid);
        }
        overrides := Some(cleaned.value);
      }
      if !NoteOk(request.note) {
        return Err(Invalid);
      }
      var loaded := blueprints.LoadBlueprint(request.blueprintId);
      if loaded.Err? {
        return Err(loaded.error);
      }
      var b := loaded.value;
      if !b.inUse {
        return Err(Invalid);
      }
      var revision := if request.revision.Some? then request.revision.value else b.currentRevision;
      if RevisionOf(b, revision).None? {
        return Err(NotFound);
      }
      return Ok(Prepared(b.id, revision, request.room, request.roomName, mapping.value, overrides, TrimNote(request.note)));
    }

    lemma CountTable()
      requires AllWhole(disk.fs.live)
      ensures |Table()| == |disk.fs.live|
    {
      assert |Table().Keys| == |disk.fs.live.Keys|;
    }

    method Write(a: Assignment, world: World) returns (saved: bool)
      requires Valid() && Assignments.StoreOk(Table()[a.id := a])
      modifies disk
      ensures Valid()
      ensures saved <==> old(Takes(a.id, world))
      ensures Table() == if saved then old(Table())[a.id := a] else old(Table())
      ensures CutsClean(disk.journal, |old(disk.journal)|, old(Table()), old(Table())[a.id := a])
    {
      hide Assignments.StoreOk, CutsClean, SafePoint, CopyFirst, BackupName, Kept, OneStepEach;
      ghost var before, from := disk.fs, |disk.journal|;
      saved := disk.Save(a.id, Ids.AssignmentStem(project, a.id), "json", a, world.stamp, world.fault, world.stuck);
      SafePointsCutClean(before, Put(a.id, a), Ids.AssignmentStem(project, a.id), "json", BackupName(Ids.AssignmentStem(project, a.id), world.stamp, "json"),
                         disk.journal, from);
      assert Table() == if saved then old(Table())[a.id := a] else old(Table());
    }

    /** What `assign` does under the lock: replace the room's assignment, or make one. */
    method StorePrepared(p: Prepared, world: World, micros: nat -> nat)
      returns (r: Result<Assignment, StoreError>, ghost freshId: string)
      requires Valid() && PreparedOk(p)
      modifies this`counter, disk
      ensures Valid()
      ensures freshId !in old(Table()) && PathSafe(freshId)
      ensures var target := if AssignmentOf(old(Table()), p.room).Some? then AssignmentOf(old(Table()), p.room).value else freshId;
              var env := Env(project, world.clock, freshId, old(Takes(target, world)));
              && r == Commit(old(Table()), p, env)
              && Table() == if r.Ok? then old(Table())[r.value.id := r.value] else old(Table())
      ensures var taken := Commit(old(Table()), p, Env(project, world.clock, freshId, true));
              CutsClean(disk.journal, |old(disk.journal)|, old(Table()),
                        if taken.Ok? then old(Table())[taken.value.id := taken.value] else old(Table()))
    {
      hide AssignmentOk, PreparedOk, OnePerRoom, PathSafe, AllWhole, AssignmentOf, OneStepEach, CutsClean;
      NothingToCut(disk.journal);
      var newId, next := Ids.NewAssignmentId(disk.fs.live.Keys, micros, counter);
      freshId := newId;
      CountTable();
      if !PathSafe(project) {
        return Err(Invalid), freshId;
      }
      var replaced := FindRoom(p.room);
      if replaced.None? && |disk.fs.live| >= MAX_ASSIGNMENTS_PER_PROJECT {
        return Err(Invalid), freshId;
      }
      var id := newId;
      var kept: seq<ItemOverride> := [];
      if replaced.Some? {
        id := replaced.value;
        kept := disk.fs.live[id].doc.overrides;
      } else {
        counter := next;
      }
      var a := Assignment(id, p.blueprintId, p.revision, p.room, p.roomName, p.mapping,
                          if p.overrides.Some? then p.overrides.value else kept, p.note, world.clock);
      ghost var env := Env(project, world.clock, freshId, true);
      assert a == Stored(Table(), p, env);
      CommitKeeps(Table(), p, env);
      var saved := Write(a, world);
      r := if saved then Ok(a) else Err(Internal);
    }

    method Delete(id: string, world: World) returns (r: Result<(), StoreError>)
      requires Valid()
      modifies disk
      ensures Valid()
      ensures r == Unassign(old(Table()), id, Env(project, world.clock, "", old(Releases(id, world))))
      ensures Table() == if r.Ok? then old(Table()) - {id} else old(Table())
      ensures CutsClean(disk.journal, |old(disk.journal)|, old(Table()),
                        if Unassign(old(Table()), id, Env(project, world.clock, "", true)).Ok? then old(Table()) - {id} else old(Table()))
    {
      hide AssignmentOk, OnePerRoom, PathSafe, CutsClean, SafePoint, CopyFirst, BackupName, Kept, OneStepEach;
      NothingToCut(disk.journal);
      if !PathSafe(id) || !PathSafe(project) {
        return Err(Invalid);
      }
      if id !in disk.fs.live {
        return Err(NotFound);
      }
      UnassignKeeps(Table(), id);
      ghost var before, from := disk.fs, |disk.journal|;
      var removed := disk.Remove(id, Ids.AssignmentStem(project, id), "json", world.stamp, world.fault, world.stuck);
      SafePointsCutClean(before, Take(id), Ids.AssignmentStem(project, id), "json", BackupName(Ids.AssignmentStem(project, id), world.stamp, "json"),
                         disk.journal, from);
      assert Table() == if removed then old(Table()) - {id} else old(Table());
      return if removed then Ok(()) else Err(Internal);
    }

    /** Whether the disk will take a removal: the copy is made first. */
    ghost predicate Releases(id: string, world: World)
      reads this, disk
    {
      && world.fault != CopyFails && world.fault != InstallFails
      && BackupName(Ids.AssignmentStem(project, id), world.stamp, "json") !in disk.fs.backups
    }
  }
}
