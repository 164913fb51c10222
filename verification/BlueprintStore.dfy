/** The blueprint store of one project, as it runs: each operation checks its request, loads the
  * blueprint, edits it in place and writes it to the disk. Every method is proved to do what
  * Blueprints.Step says, so what BlueprintRuns proves of steps holds of it.
  */
module BlueprintStore {

  import opened Wrappers
  import opened Text
  import opened Content
  import opened Blueprints
  import opened Backups
  import opened D = Disk
  import Ids

  /** The environment of the specification: `saved` is whether the disk took the write. */
  function EnvOf(project: string, world: World, freshId: string, saved: bool): Env {
    Env(project, world.clock, freshId, saved)
  }

  lemma {:induction false} PositionIsFirst(pending: seq<Pending>, pendingId: nat, at: nat)
    requires at < |pending| && pending[at].pendingId == pendingId
    requires forall k :: 0 <= k < at ==> pending[k].pendingId != pendingId
    ensures Position(pending, pendingId) == Some(at)
  {
    if at > 0 {
      assert pending[0].pendingId != pendingId;
      PositionIsFirst(pending[1..], pendingId, at - 1);
    }
  }

  /** Take a pending revision out of the queue. */
  method TakePending(pending: seq<Pending>, pendingId: nat) returns (taken: Option<Pending>, rest: seq<Pending>)
    ensures var at := Position(pending, pendingId);
            && (at.None? ==> taken.None? && rest == pending)
            && (at.Some? ==> taken == Some(pending[at.value]) && rest == pending[..at.value] + pending[at.value + 1..])
  {
    for k := 0 to |pending|
      invariant forall j :: 0 <= j < k ==> pending[j].pendingId != pendingId
    {
      if pending[k].pendingId == pendingId {
        PositionIsFirst(pending, pendingId, k);
        return Some(pending[k]), pending[..k] + pending[k + 1..];
      }
    }
    return None, pending;
  }

  class BlueprintStore {
    const project: string
    const disk: Disk<Blueprint>
    var counter: nat

    ghost predicate Valid()
      reads this, disk
    {
      && disk.Valid() && AllWhole(disk.fs.live)
      && forall id :: id in disk.fs.live ==> disk.fs.live[id].doc.id == id && BlueprintOk(disk.fs.live[id].doc)
    }

    /** The documents a reader finds. */
    ghost function Docs(): (docs: map<string, Blueprint>)
      reads this, disk
      requires Valid()
      ensures docs.Keys == disk.fs.live.Keys
    {
      Documents(disk.fs.live)
    }

    /** Whether the disk will take a write of this blueprint: no fault where the write would meet it, and
      * the name of the copy of a replaced document still free. */
    ghost predicate Takes(id: string, world: World)
      reads this, disk
    {
      && world.fault != TempFails && world.fault != InstallFails
      && (id in disk.fs.live ==>
            world.fault != CopyFails && BackupName(Ids.BlueprintStem(project, id), world.stamp, "json") !in disk.fs.backups)
    }

    /** The store opened on a disk, new or found after a restart. */
    constructor (project: string, disk: Disk<Blueprint>)
      requires disk.Valid() && AllWhole(disk.fs.live)
      requires forall id :: id in disk.fs.live ==> disk.fs.live[id].doc.id == id && BlueprintOk(disk.fs.live[id].doc)
      ensures Valid() && Docs() == Documents(disk.fs.live) && this.project == project && this.disk == disk
    {
      this.project := project;
      this.disk := disk;
      counter := 0;
    }

    /** `load`: no lock is taken. */
    method LoadBlueprint(id: string) returns (r: Result<Blueprint, StoreError>)
      requires Valid()
      ensures r == Load(Docs(), project, id)
    {
      if !PathSafe(id) || !PathSafe(project) {
        return Err(Invalid);
      }
      if id !in disk.fs.live {
        return Err(NotFound);
      }
      return Ok(disk.fs.live[id].doc);
    }

    /** Write a blueprint: `saved` is false when the disk refuses, and then nothing has changed. */
    method Write(b: Blueprint, world: World) returns (saved: bool)
      requires Valid() && BlueprintOk(b)
      modifies disk
      ensures Valid()
      ensures saved <==> old(Takes(b.id, world))
      ensures Docs() == if saved then old(Docs())[b.id := b] else old(Docs())
      ensures CutsClean(disk.journal, |old(disk.journal)|, old(Docs()), old(Docs())[b.id := b])
    {
      hide BlueprintOk, CutsClean, SafePoint, CopyFirst, BackupName, Kept, OneStepEach;
      ghost var before, from := disk.fs, |disk.journal|;
      saved := disk.Save(b.id, Ids.BlueprintStem(project, b.id), "json", b, world.stamp, world.fault, world.stuck);
      SafePointsCutClean(before, Put(b.id, b), Ids.BlueprintStem(project, b.id), "json", BackupName(Ids.BlueprintStem(project, b.id), world.stamp, "json"),
                         disk.journal, from);
    }

    /** Write what an operation has made of the blueprint it loaded, and answer with it. */
    method Finish(ghost op: Op, ghost loaded: Blueprint, b: Blueprint, world: World) returns (r: Result<Blueprint, StoreError>)
      requires Valid() && BlueprintOk(b) && !op.Create? && RequestOk(op)
      requires Load(Docs(), project, op.id) == Ok(loaded) && Edit(loaded, op, world.clock) == Ok(b) && b.id == op.id
      modifies disk
      ensures Valid()
      ensures r == Answer(old(Docs()), op, EnvOf(project, world, "", old(Takes(op.id, world))))
      ensures Docs() == Step(old(Docs()), op, EnvOf(project, world, "", old(Takes(op.id, world))))
      ensures CutsClean(disk.journal, |old(disk.journal)|, old(Docs()), Step(old(Docs()), op, EnvOf(project, world, "", true)))
    {
      hide BlueprintOk, RequestOk, Edit, Load, CutsClean, OneStepEach, BackupName;
      var saved := Write(b, world);
      r := if saved then Ok(b) else Err(Internal);
    }

    method Create(name: string, source: Option<SourceRoom>, note: Option<string>, content: Revised,
                  world: World, micros: nat -> nat)
      returns (r: Result<Blueprint, StoreError>, ghost id: string)
      requires Valid()
      modifies this`counter, disk
      ensures Valid()
      ensures id !in old(Docs()) && PathSafe(id)
      ensures r == Answer(old(Docs()), Op.Create(name, source, note, content), EnvOf(project, world, id, old(Takes(id, world))))
      ensures Docs() == Step(old(Docs()), Op.Create(name, source, note, content), EnvOf(project, world, id, old(Takes(id, world))))
      ensures CutsClean(disk.journal, |old(disk.journal)|, old(Docs()), Step(old(Docs()), Op.Create(name, source, note, content), EnvOf(project, world, id, true)))
    {
      hide OneStepEach, BackupName, CutsClean, BlueprintOk, PathSafe, CleanName, NoteOk, TrimNote, ContentOk;
      NothingToCut(disk.journal);
      ghost var op := Op.Create(name, source, note, content);
      var newId, next := Ids.NewBlueprintId(disk.fs.live.Keys, micros, counter);
      id := newId;
      var cleaned := CleanName(name);
      if cleaned.Err? {
        return Err(Invalid), id;
      }
      if !NoteOk(note) {
        return Err(Invalid), id;
      }
      var refusal := ValidateContent(content);
      if refusal.Some? {
        return Err(Invalid), id;
      }
      if !PathSafe(project) || |disk.fs.live| >= MAX_BLUEPRINTS_PER_PROJECT {
        CountDocs();
        return Err(Invalid), id;
      }
      CountDocs();
      counter := next;
      FirstRevisionOk(op, newId, world.clock);
      var b := Blueprint(newId, cleaned.value, world.clock, source, 1, true,
                         [Revision(1, world.clock, TrimNote(note), content)], [], [], 0);
      var saved := Write(b, world);
      r := if saved then Ok(b) else Err(Internal);
    }

    lemma CountDocs()
      requires Valid()
      ensures |Docs()| == |disk.fs.live|
    {
      assert |Docs().Keys| == |disk.fs.live.Keys|;
    }

    method AddRevision(id: string, base: string, note: Option<string>, makeCurrent: bool, content: Revised, world: World)
      returns (r: Result<Blueprint, StoreError>)
      requires Valid()
      modifies disk
      ensures Valid()
      ensures r == Answer(old(Docs()), Op.AddRevision(id, base, note, makeCurrent, content), EnvOf(project, world, "", old(Takes(id, world))))
      ensures Docs() == Step(old(Docs()), Op.AddRevision(id, base, note, makeCurrent, content), EnvOf(project, world, "", old(Takes(id, world))))
      ensures CutsClean(disk.journal, |old(disk.journal)|, old(Docs()), Step(old(Docs()), Op.AddRevision(id, base, note, makeCurrent, content), EnvOf(project, world, "", true)))
    {
      hide OneStepEach, BackupName, CutsClean, BlueprintOk, PathSafe, NoteOk, TrimNote, ContentOk, NextStamp, MaxNumber;
      NothingToCut(disk.journal);
      ghost var op := Op.AddRevision(id, base, note, makeCurrent, content);
      if !NoteOk(note) {
        return Err(Invalid);
      }
      var refusal := ValidateContent(content);
      if refusal.Some? {
        return Err(Invalid);
      }
      var loaded := LoadBlueprint(id);
      if loaded.Err? {
        return loaded;
      }
      var b := loaded.value;
      if b.takenAt != base {
        return Err(Conflict);
      }
      if |b.revisions| >= MAX_REVISIONS {
        return Err(Invalid);
      }
      ghost var before := b;
      var number := MaxNumber(b.revisions) + 1;
      b := b.(takenAt := NextStamp(b.takenAt, world.clock));
      b := b.(revisions := b.revisions + [Revision(number, b.takenAt, TrimNote(note), content)]);
      if makeCurrent {
        b := b.(currentRevision := number);
      }
      EditKeeps(before, op, world.clock);
      r := Finish(op, before, b, world);
    }

    method Push(id: string, origin: Option<string>, note: Option<string>, bundle: Option<string>, content: Revised, world: World)
      returns (r: Result<Blueprint, StoreError>)
      requires Valid()
      modifies disk
      ensures Valid()
      ensures r == Answer(old(Docs()), Op.Push(id, origin, note, bundle, content), EnvOf(project, world, "", old(Takes(id, world))))
      ensures Docs() == Step(old(Docs()), Op.Push(id, origin, note, bundle, content), EnvOf(project, world, "", old(Takes(id, world))))
      ensures CutsClean(disk.journal, |old(disk.journal)|, old(Docs()), Step(old(Docs()), Op.Push(id, origin, note, bundle, content), EnvOf(project, world, "", true)))
    {
      hide OneStepEach, BackupName, CutsClean, BlueprintOk, PathSafe, NoteOk, TrimNote, ContentOk, NextStamp;
      NothingToCut(disk.journal);
      ghost var op := Op.Push(id, origin, note, bundle, content);
      if !NoteOk(note) || !NoteOk(origin) {
        return Err(Invalid);
      }
      var refusal := ValidateContent(content);
      if refusal.Some? {
        return Err(Invalid);
      }
      var loaded := LoadBlueprint(id);
      if loaded.Err? {
        return loaded;
      }
      var b := loaded.value;
      if |b.pending| >= MAX_PENDING {
        return Err(Invalid);
      }
      ghost var before := b;
      var pendingId := b.lastPendingId + 1;
      b := b.(lastPendingId := pendingId);
      b := b.(takenAt := NextStamp(b.takenAt, world.clock));
      b := b.(pending := b.pending + [Pending(pendingId, b.takenAt, TrimNote(origin), TrimNote(note), bundle, content)]);
      EditKeeps(before, op, world.clock);
      r := Finish(op, before, b, world);
    }

    method Accept(id: string, pendingId: nat, base: string, world: World)
      returns (r: Result<Blueprint, StoreError>)
      requires Valid()
      modifies disk
      ensures Valid()
      ensures r == Answer(old(Docs()), Op.Accept(id, pendingId, base), EnvOf(project, world, "", old(Takes(id, world))))
      ensures Docs() == Step(old(Docs()), Op.Accept(id, pendingId, base), EnvOf(project, world, "", old(Takes(id, world))))
      ensures CutsClean(disk.journal, |old(disk.journal)|, old(Docs()), Step(old(Docs()), Op.Accept(id, pendingId, base), EnvOf(project, world, "", true)))
    {
      hide OneStepEach, BackupName, CutsClean, BlueprintOk, PathSafe, NextStamp, MaxNumber, Position;
      NothingToCut(disk.journal);
      ghost var op := Op.Accept(id, pendingId, base);
      var loaded := LoadBlueprint(id);
      if loaded.Err? {
        return loaded;
      }
      var b := loaded.value;
      if b.takenAt != base {
        return Err(Conflict);
      }
      if |b.revisions| >= MAX_REVISIONS {
        return Err(Invalid);
      }
      ghost var before := b;
      var accepted, rest := TakePending(b.pending, pendingId);
      if accepted.None? {
        return Err(Invalid);
      }
      b := b.(pending := rest);
      var number := MaxNumber(b.revisions) + 1;
      b := b.(takenAt := NextStamp(b.takenAt, world.clock));
      b := b.(revisions := b.revisions + [Revision(number, b.takenAt, accepted.value.note, accepted.value.content)]);
      b := b.(currentRevision := number);
      EditKeeps(before, op, world.clock);
      r := Finish(op, before, b, world);
    }

    method Reject(id: string, pendingId: nat, base: string, world: World)
      returns (r: Result<Blueprint, StoreError>)
      requires Valid()
      modifies disk
      ensures Valid()
      ensures r == Answer(old(Docs()), Op.Reject(id, pendingId, base), EnvOf(project, world, "", old(Takes(id, world))))
      ensures Docs() == Step(old(Docs()), Op.Reject(id, pendingId, base), EnvOf(project, world, "", old(Takes(id, world))))
      ensures CutsClean(disk.journal, |old(disk.journal)|, old(Docs()), Step(old(Docs()), Op.Reject(id, pendingId, base), EnvOf(project, world, "", true)))
    {
      hide OneStepEach, BackupName, CutsClean, BlueprintOk, PathSafe, NextStamp, Position;
      NothingToCut(disk.journal);
      ghost var op := Op.Reject(id, pendingId, base);
      var loaded := LoadBlueprint(id);
      if loaded.Err? {
        return loaded;
      }
      var b := loaded.value;
      if b.takenAt != base {
        return Err(Conflict);
      }
      ghost var before := b;
      var declined, rest := TakePending(b.pending, pendingId);
      if declined.None? {
        return Err(Invalid);
      }
      b := b.(pending := rest);
      var kept := declined.value.(bundle := None);
      b := b.(takenAt := NextStamp(b.takenAt, world.clock));
      b := b.(rejected := b.rejected + [Rejected(b.takenAt, kept)]);
      EditKeeps(before, op, world.clock);
      r := Finish(op, before, b, world);
    }

    method Update(id: string, base: string, newName: Option<string>, current: Option<nat>, inUse: Option<bool>, world: World)
      returns (r: Result<Blueprint, StoreError>)
      requires Valid()
      modifies disk
      ensures Valid()
      ensures r == Answer(old(Docs()), Op.Update(id, base, newName, current, inUse), EnvOf(project, world, "", old(Takes(id, world))))
      ensures Docs() == Step(old(Docs()), Op.Update(id, base, newName, current, inUse), EnvOf(project, world, "", old(Takes(id, world))))
      ensures CutsClean(disk.journal, |old(disk.journal)|, old(Docs()), Step(old(Docs()), Op.Update(id, base, newName, current, inUse), EnvOf(project, world, "", true)))
    {
      hide OneStepEach, BackupName, CutsClean, BlueprintOk, PathSafe, NextStamp, CleanName, RevisionOf;
      NothingToCut(disk.journal);
      ghost var op := Op.Update(id, base, newName, current, inUse);
      if newName.Some? {
        if CleanName(newName.value).Err? {
          return Err(Invalid);
        }
      }
      var loaded := LoadBlueprint(id);
      if loaded.Err? {
        return loaded;
      }
      var b := loaded.value;
      if b.takenAt != base {
        return Err(Conflict);
      }
      ghost var before := b;
      if current.Some? {
        if RevisionOf(b, current.value).None? {
          return Err(Invalid);
        }
        b := b.(currentRevision := current.value);
      }
      if newName.Some? {
        b := b.(name := CleanName(newName.value).value);
      }
      if inUse.Some? {
        b := b.(inUse := inUse.value);
      }
      b := b.(takenAt := NextStamp(b.takenAt, world.clock));
      EditKeeps(before, op, world.clock);
      r := Finish(op, before, b, world);
    }
  }
}
