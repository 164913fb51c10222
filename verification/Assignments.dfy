/** Which blueprint revision is placed in which room. What is checked before the lock is taken and what
  * is done under it are separate functions here, because other writers run in between.
  */
module Assignments {

  import opened Wrappers
  import opened Text
  import opened Blueprints
  import opened Frames

  const MAX_ASSIGNMENTS_PER_PROJECT: nat := 20000
  const MAX_EDGES: nat := 2000
  const MAX_OVERRIDES: nat := 2000
  const MAX_NUDGE_MM: int := 20000

  /** A 32-bit signed integer. */
  type Int32 = x: int | -0x8000_0000 <= x <= 0x7FFF_FFFF

  const INT32_MIN: Int32 := -0x8000_0000

  /** `abs` of the most negative value does not fit and wraps back to it, as an optimised build does. */
  function Abs32(x: Int32): Int32 {
    if x == INT32_MIN then INT32_MIN else if x < 0 then -x else x
  }

  datatype RoomKey = RoomKey(modelId: string, roomId: string)

  datatype Mapping = Mapping(frame: Option<Frame>, shift: Option<nat>, edgeMap: Option<seq<nat>>)

  datatype ItemOverride = ItemOverride(itemId: string, exclude: bool, dxMm: Int32, dyMm: Int32, rotateDeg: Int32)

  datatype Assignment = Assignment(id: string, blueprintId: string, revision: nat, room: RoomKey, roomName: string,
                                   mapping: Mapping, overrides: seq<ItemOverride>, note: Option<string>, takenAt: string)

  datatype AssignRequest = AssignRequest(blueprintId: string, revision: Option<nat>, room: RoomKey, roomName: string,
                                         mapping: Mapping, overrides: Option<seq<ItemOverride>>, note: Option<string>)

  // ---------------------------------------------------------------- mappings

  function CountSet(m: Mapping): nat {
    (if m.shift.Some? then 1 else 0) + (if m.edgeMap.Some? then 1 else 0) + (if m.frame.Some? then 1 else 0)
  }

  function CleanMapping(m: Mapping): Result<Mapping, StoreError> {
    if CountSet(m) > 1 then Err(Invalid)
    else if m.frame.Some? && Checked(m.frame.value).Err? then Err(Invalid)
    else if m.edgeMap.Some? && |m.edgeMap.value| > MAX_EDGES then Err(Invalid)
    else Ok(m.(frame := if m.frame.Some? then Some(Checked(m.frame.value).value) else None))
  }

  /** A kept mapping is one answer at most, and cleaning what is kept changes nothing. */
  lemma CleanMappingIsClean(m: Mapping)
    requires CleanMapping(m).Ok?
    ensures var kept := CleanMapping(m).value;
            && CountSet(kept) <= 1 && kept.shift == m.shift && kept.edgeMap == m.edgeMap
            && (kept.frame.Some? <==> m.frame.Some?)
            && CleanMapping(kept) == Ok(kept)
  {
    if m.frame.Some? {
      CheckedBox(m.frame.value);
    }
    hide Checked;
  }

  /** The mapping as asked for: the same answer, a frame's angle brought into one turn and nothing else of it
    * changed. */
  ghost predicate MappingAsked(asked: Mapping, kept: Mapping) {
    && kept.shift == asked.shift && kept.edgeMap == asked.edgeMap
    && (kept.frame.Some? <==> asked.frame.Some?)
    && (asked.frame.Some? ==>
          && kept.frame.value == asked.frame.value.(rotateDeg := kept.frame.value.rotateDeg)
          && -180.0 < kept.frame.value.rotateDeg <= 180.0
          && SameDirection(asked.frame.value.rotateDeg, kept.frame.value.rotateDeg))
  }

  predicate FrameInRange(f: Frame) {
    && -MAX_FRAME_MOVE_MM <= f.dxMm <= MAX_FRAME_MOVE_MM && -MAX_FRAME_MOVE_MM <= f.dyMm <= MAX_FRAME_MOVE_MM
    && MIN_SCALE <= f.sx <= MAX_SCALE && MIN_SCALE <= f.sy <= MAX_SCALE
  }

  /** A mapping is accepted exactly when it gives at most one answer, within its limits, and kept as asked for. */
  lemma CleanMappingIsAsked(m: Mapping)
    ensures CleanMapping(m).Ok? <==>
            && !(m.frame.Some? && m.shift.Some?) && !(m.frame.Some? && m.edgeMap.Some?) && !(m.shift.Some? && m.edgeMap.Some?)
            && (m.frame.Some? ==> FrameInRange(m.frame.value))
            && (m.edgeMap.Some? ==> |m.edgeMap.value| <= MAX_EDGES)
    ensures CleanMapping(m).Ok? ==> MappingAsked(m, CleanMapping(m).value)
  {
    if m.frame.Some? {
      CheckedBox(m.frame.value);
    }
    hide Checked, SameDirection;
  }

  // ---------------------------------------------------------------- overrides

  predicate IsNoop(o: ItemOverride) {
    !o.exclude && o.dxMm == 0 && o.dyMm == 0 && o.rotateDeg == 0
  }

  /** The checks on one override by itself. */
  predicate Within(o: ItemOverride) {
    && !Blank(o.itemId)
    && Abs32(o.dxMm) <= MAX_NUDGE_MM && Abs32(o.dyMm) <= MAX_NUDGE_MM && Abs32(o.rotateDeg) <= 360
  }

  /** An override is refused when an earlier one that is kept names the same item. */
  predicate OverridesOk(overrides: seq<ItemOverride>) {
    && |overrides| <= MAX_OVERRIDES
    && (forall k :: 0 <= k < |overrides| ==> Within(overrides[k]))
    && (forall j, k :: 0 <= j < k < |overrides| && overrides[j].itemId == overrides[k].itemId ==> IsNoop(overrides[j]))
  }

  /** The overrides that change something, in order. */
  function KeptOverrides(overrides: seq<ItemOverride>): (kept: seq<ItemOverride>)
    ensures |kept| <= |overrides|
  {
    if overrides == [] then []
    else
      var last := overrides[|overrides| - 1];
      var rest := KeptOverrides(overrides[..|overrides| - 1]);
      if IsNoop(last) then rest else rest + [last]
  }

  /** Where each kept override came from. */
  function KeptFrom(overrides: seq<ItemOverride>): (from: seq<nat>)
    ensures |from| == |KeptOverrides(overrides)|
    ensures forall k :: 0 <= k < |from| ==> from[k] < |overrides|
  {
    if overrides == [] then []
    else
      var rest := KeptFrom(overrides[..|overrides| - 1]);
      if IsNoop(overrides[|overrides| - 1]) then rest else rest + [|overrides| - 1]
  }

  /** What is kept is an in-order selection of what was sent: exactly the overrides that are no no-ops. */
  lemma {:induction false} KeptIsSelection(overrides: seq<ItemOverride>)
    ensures var kept, from := KeptOverrides(overrides), KeptFrom(overrides);
            && (forall k :: 0 <= k < |kept| ==> kept[k] == overrides[from[k]] && !IsNoop(kept[k]))
            && (forall j, k :: 0 <= j < k < |from| ==> from[j] < from[k])
            && (forall m :: 0 <= m < |overrides| && !IsNoop(overrides[m]) ==> m in from)
  {
    hide IsNoop;
    if overrides != [] {
      var front, last := overrides[..|overrides| - 1], overrides[|overrides| - 1];
      KeptIsSelection(front);
      assert overrides == front + [last];
      if IsNoop(last) {
        assert KeptOverrides(overrides) == KeptOverrides(front) && KeptFrom(overrides) == KeptFrom(front);
        hide KeptOverrides, KeptFrom;
      } else {
        assert KeptOverrides(overrides) == KeptOverrides(front) + [last];
        assert KeptFrom(overrides) == KeptFrom(front) + [|front|];
        hide KeptOverrides, KeptFrom;
        assert (KeptFrom(front) + [|front|])[|KeptFrom(front)|] == |front|;
      }
    }
  }

  /** Whether an override leaves its item out, moves it or turns it. */
  predicate Changes(o: ItemOverride) { o != ItemOverride(o.itemId, false, 0, 0, 0) }

  /** An override is kept if and only if it changes something. */
  lemma KeptAreTheChanges(overrides: seq<ItemOverride>)
    ensures forall m: nat :: m < |overrides| ==> (m in KeptFrom(overrides) <==> Changes(overrides[m]))
  {
    KeptIsSelection(overrides);
    forall m: nat | m < |overrides|
      ensures IsNoop(overrides[m]) <==> !Changes(overrides[m])
    {
    }
    hide KeptOverrides, KeptFrom, IsNoop, Changes;
  }

  /** Whether the kept part of a list names an item. */
  predicate Names(kept: seq<ItemOverride>, itemId: string) {
    exists x :: 0 <= x < |kept| && kept[x].itemId == itemId
  }

  predicate NamedBefore(overrides: seq<ItemOverride>, k: nat)
    requires k < |overrides|
  {
    exists j :: 0 <= j < k && overrides[j].itemId == overrides[k].itemId && !IsNoop(overrides[j])
  }

  lemma {:induction false} KeptNames(overrides: seq<ItemOverride>, itemId: string)
    ensures Names(KeptOverrides(overrides), itemId)
       <==> exists j :: 0 <= j < |overrides| && overrides[j].itemId == itemId && !IsNoop(overrides[j])
  {
    hide IsNoop;
    KeptIsSelection(overrides);
    var kept, from := KeptOverrides(overrides), KeptFrom(overrides);
    hide KeptOverrides, KeptFrom;
    if j :| 0 <= j < |overrides| && overrides[j].itemId == itemId && !IsNoop(overrides[j]) {
      var x :| 0 <= x < |from| && from[x] == j;
      assert kept[x].itemId == itemId;
    }
    if x :| 0 <= x < |kept| && kept[x].itemId == itemId {
      assert overrides[from[x]].itemId == itemId && !IsNoop(overrides[from[x]]);
    }
  }

  /** One more override, judged as the loop judges it. */
  lemma NextOverride(overrides: seq<ItemOverride>, k: nat)
    requires k < |overrides| <= MAX_OVERRIDES && OverridesOk(overrides[..k])
    ensures OverridesOk(overrides[..k + 1]) <==> Within(overrides[k]) && !NamedBefore(overrides, k)
    ensures OverridesOk(overrides) ==> OverridesOk(overrides[..k + 1])
    ensures Names(KeptOverrides(overrides[..k]), overrides[k].itemId) <==> NamedBefore(overrides, k)
    ensures KeptOverrides(overrides[..k + 1])
         == if IsNoop(overrides[k]) then KeptOverrides(overrides[..k]) else KeptOverrides(overrides[..k]) + [overrides[k]]
  {
    hide IsNoop, Within;
    assert overrides[..k + 1][..k] == overrides[..k];
    KeptNames(overrides[..k], overrides[k].itemId);
    hide Names;
    if j :| 0 <= j < k && overrides[j].itemId == overrides[k].itemId && !IsNoop(overrides[j]) {
      var upTo := overrides[..k + 1];
      assert upTo[j].itemId == upTo[k].itemId && !IsNoop(upTo[j]);
    }
  }

  /** The loop, against the overrides kept so far. */
  method CleanOverrides(overrides: seq<ItemOverride>) returns (r: Result<seq<ItemOverride>, StoreError>)
    ensures r == if OverridesOk(overrides) then Ok(KeptOverrides(overrides)) else Err(Invalid)
  {
    hide Within, IsNoop, NamedBefore, Names, KeptOverrides;
    if |overrides| > MAX_OVERRIDES {
      return Err(Invalid);
    }
    var out: seq<ItemOverride> := [];
    NothingIsClean();
    for k := 0 to |overrides|
      invariant out == KeptOverrides(overrides[..k])
      invariant OverridesOk(overrides[..k])
    {
      var o := overrides[k];
      NextOverride(overrides, k);
      hide OverridesOk;
      if !Within(o) {
        return Err(Invalid);
      }
      if Names(out, o.itemId) {
        return Err(Invalid);
      }
      if !IsNoop(o) {
        out := out + [o];
      }
    }
    assert overrides[..|overrides|] == overrides;
    return Ok(out);
  }

  /** What is kept has one override per item, none that changes nothing, and is kept as it is again. */
  lemma KeptIsClean(overrides: seq<ItemOverride>)
    requires OverridesOk(overrides)
    ensures var kept := KeptOverrides(overrides);
            && (forall j, k :: 0 <= j < k < |kept| ==> kept[j].itemId != kept[k].itemId)
            && OverridesOk(kept) && KeptOverrides(kept) == kept
  {
    hide Within, IsNoop;
    KeptIsSelection(overrides);
    var kept, from := KeptOverrides(overrides), KeptFrom(overrides);
    hide KeptOverrides;
    forall j, k | 0 <= j < k < |kept|
      ensures kept[j].itemId != kept[k].itemId
    {
      assert from[j] < from[k];
    }
    KeepsAll(kept);
  }

  lemma {:induction false} KeepsAll(overrides: seq<ItemOverride>)
    requires forall k :: 0 <= k < |overrides| ==> !IsNoop(overrides[k])
    ensures KeptOverrides(overrides) == overrides
  {
    hide IsNoop;
    if overrides != [] {
      KeepsAll(overrides[..|overrides| - 1]);
    }
  }

  predicate InRange(o: ItemOverride) {
    -MAX_NUDGE_MM <= o.dxMm <= MAX_NUDGE_MM && -MAX_NUDGE_MM <= o.dyMm <= MAX_NUDGE_MM && -360 <= o.rotateDeg <= 360
  }

  /** The number is no larger than the limit either way, or it is the most negative there is. */
  predicate Passes(x: Int32, limit: int) { -limit <= x <= limit || x == INT32_MIN }

  /** An override that names an item is accepted by itself when each of its numbers is in range or the most negative
    * 32-bit value; it is in range exactly when none is the latter, which passes however far out of range it is. */
  lemma AcceptedIsInRange(o: ItemOverride)
    ensures Within(o) <==>
            && !AllSpace(o.itemId)
            && Passes(o.dxMm, MAX_NUDGE_MM) && Passes(o.dyMm, MAX_NUDGE_MM) && Passes(o.rotateDeg, 360)
    ensures Within(o) ==> (InRange(o) <==> o.dxMm != INT32_MIN && o.dyMm != INT32_MIN && o.rotateDeg != INT32_MIN)
  {
    BlankIsAllSpace(o.itemId);
    hide Blank, AllSpace;
  }

  lemma MostNegativeNudgePasses()
    ensures var o := ItemOverride("bed", false, INT32_MIN, 0, 0);
            OverridesOk([o]) && KeptOverrides([o]) == [o] && !InRange(o)
  {
    var o := ItemOverride("bed", false, INT32_MIN, 0, 0);
    assert TrimStart("bed") == "bed" && TrimEnd("bed") == "bed";
    KeepsAll([o]);
  }

  /** "One per item" is judged against what is kept so far, so the order matters: a change may follow a
    * no-op for the same item, and a no-op may not follow a change. */
  lemma NoopFirstOrLast(move: ItemOverride, noop: ItemOverride)
    requires Within(move) && Within(noop) && IsNoop(noop) && !IsNoop(move) && move.itemId == noop.itemId
    ensures OverridesOk([noop, move]) && KeptOverrides([noop, move]) == [move]
    ensures !OverridesOk([move, noop])
  {
    hide Within, IsNoop;
    assert [noop, move][..1] == [noop] && [noop][..0] == [];
    assert [move, noop][0].itemId == [move, noop][1].itemId;
  }

  // ---------------------------------------------------------------- before the lock

  /** What a request has become when it asks for the lock: everything checked, and a revision pinned. */
  datatype Prepared = Prepared(blueprintId: string, revision: nat, room: RoomKey, roomName: string, mapping: Mapping,
                               overrides: Option<seq<ItemOverride>>, note: Option<string>)

  predicate RequestOk(request: AssignRequest) {
    && !Blank(request.room.roomId) && !Blank(request.room.modelId)
    && CleanMapping(request.mapping).Ok?
    && (request.overrides.Some? ==> OverridesOk(request.overrides.value))
    && NoteOk(request.note)
  }

  /** The revision a request pins in the blueprint it loaded. */
  function Pin(request: AssignRequest, b: Blueprint): nat {
    if request.revision.Some? then request.revision.value else b.currentRevision
  }

  function Prepare(request: AssignRequest, loaded: Result<Blueprint, StoreError>): Result<Prepared, StoreError> {
    if !RequestOk(request) then Err(Invalid)
    else if loaded.Err? then Err(loaded.error)
    else if !loaded.value.inUse then Err(Invalid)
    else if RevisionOf(loaded.value, Pin(request, loaded.value)).None? then Err(NotFound)
    else Ok(Prepared(loaded.value.id, Pin(request, loaded.value), request.room, request.roomName,
                     CleanMapping(request.mapping).value,
                     if request.overrides.Some? then Some(KeptOverrides(request.overrides.value)) else None,
                     TrimNote(request.note)))
  }

  /** What is prepared is what was asked: the revision named, or where none was named the one current when the
    * blueprint was loaded, for the room, mapping, overrides and note of the request. */
  ghost predicate PreparedAsked(request: AssignRequest, loaded: Blueprint, p: Prepared) {
    && p.blueprintId == loaded.id
    && p.revision == (if request.revision.Some? then request.revision.value else loaded.currentRevision)
    && p.room == request.room && p.roomName == request.roomName
    && MappingAsked(request.mapping, p.mapping) && NoteAsked(request.note, p.note)
    && (p.overrides.Some? <==> request.overrides.Some?)
    && (request.overrides.Some? ==> p.overrides.value == KeptOverrides(request.overrides.value))
  }

  lemma PrepareIsAsked(request: AssignRequest, loaded: Result<Blueprint, StoreError>)
    requires Prepare(request, loaded).Ok?
    ensures loaded.Ok? && PreparedAsked(request, loaded.value, Prepare(request, loaded).value)
  {
    hide RevisionOf, Blank, CleanMapping, MappingAsked, OverridesOk, KeptOverrides, TrimNote, NoteAsked;
    CleanMappingIsAsked(request.mapping);
    TrimNoteIsAsked(request.note);
  }

  /** And it is refused only when some part of it is out of its limits, or the blueprint is missing, retired or
    * without the revision. */
  lemma PrepareSucceedsWhen(request: AssignRequest, loaded: Result<Blueprint, StoreError>)
    requires loaded.Ok? ==> BlueprintOk(loaded.value)
    ensures Prepare(request, loaded).Ok? <==>
            && !AllSpace(request.room.roomId) && !AllSpace(request.room.modelId)
            && CleanMapping(request.mapping).Ok? && NoteOk(request.note)
            && (request.overrides.Some? ==> OverridesOk(request.overrides.value))
            && loaded.Ok? && loaded.value.inUse
            && (request.revision.Some? ==> 1 <= request.revision.value <= |loaded.value.revisions|)
  {
    hide RevisionOf, CleanMapping, OverridesOk, NoteOk, AllSpace, Blank, KeptOverrides, BlueprintOk, TrimNote;
    BlankIsAllSpace(request.room.roomId);
    BlankIsAllSpace(request.room.modelId);
    if loaded.Ok? {
      RevisionIsThere(loaded.value, Pin(request, loaded.value));
    }
  }

  /** What is missing is told from what is wrong: the blueprint, or the revision asked for of one in use. */
  lemma MissingIsNotFound(request: AssignRequest, loaded: Result<Blueprint, StoreError>)
    requires loaded.Ok? ==> BlueprintOk(loaded.value)
    ensures Prepare(request, loaded) == Err(NotFound) <==>
            && RequestOk(request)
            && (loaded == Err(NotFound)
                || (loaded.Ok? && loaded.value.inUse && request.revision.Some?
                    && !(1 <= request.revision.value <= |loaded.value.revisions|)))
  {
    hide RevisionOf, RequestOk, BlueprintOk, KeptOverrides, TrimNote, CleanMapping;
    if loaded.Ok? {
      RevisionIsThere(loaded.value, Pin(request, loaded.value));
    }
  }

  lemma BlankIsAllSpace(s: string)
    ensures Blank(s) <==> AllSpace(s)
  {
    var front, back := TrimDropsOuterSpace(s);
  }

  lemma RevisionIsThere(b: Blueprint, number: nat)
    requires BlueprintOk(b)
    ensures RevisionOf(b, number).Some? <==> 1 <= number <= |b.revisions|
    ensures 1 <= b.currentRevision <= |b.revisions|
  {
    hide QueueOk, PathSafe, CleanName;
    FindByPlace(b.revisions, 1, number);
  }

  // ---------------------------------------------------------------- under the lock

  type Assigned = map<string, Assignment>

  /** The assignment of a room, if it has one. */
  ghost function AssignmentOf(table: Assigned, room: RoomKey): Option<string> {
    if exists id :: id in table && table[id].room == room
    then var id :| id in table && table[id].room == room; Some(id)
    else None
  }

  ghost function Stored(table: Assigned, p: Prepared, env: Env): Assignment {
    var replaced := AssignmentOf(table, p.room);
    Assignment(if replaced.Some? then replaced.value else env.freshId,
               p.blueprintId, p.revision, p.room, p.roomName, p.mapping,
               if p.overrides.Some? then p.overrides.value
               else if replaced.Some? then table[replaced.value].overrides else [],
               p.note, env.clock)
  }

  ghost function Commit(table: Assigned, p: Prepared, env: Env): Result<Assignment, StoreError> {
    if !PathSafe(env.project) then Err(Invalid)
    else if AssignmentOf(table, p.room).None? && |table| >= MAX_ASSIGNMENTS_PER_PROJECT then Err(Invalid)
    else if !env.saved then Err(Internal)
    else Ok(Stored(table, p, env))
  }

  ghost function Unassign(table: Assigned, id: string, env: Env): Result<(), StoreError> {
    if !PathSafe(id) || !PathSafe(env.project) then Err(Invalid)
    else if id !in table then Err(NotFound)
    else if !env.saved then Err(Internal)
    else Ok(())
  }

  // ---------------------------------------------------------------- what every write keeps

  ghost predicate OnePerRoom(table: Assigned) {
    forall id, other :: id in table && other in table && table[id].room == table[other].room ==> id == other
  }

  ghost predicate AssignmentOk(a: Assignment) {
    && PathSafe(a.id) && OverridesOk(a.overrides) && KeptOverrides(a.overrides) == a.overrides
    && CleanMapping(a.mapping) == Ok(a.mapping)
  }

  ghost predicate StoreOk(table: Assigned) {
    && OnePerRoom(table)
    && forall id :: id in table ==> table[id].id == id && AssignmentOk(table[id])
  }

  ghost predicate PreparedOk(p: Prepared) {
    && (p.overrides.Some? ==> OverridesOk(p.overrides.value) && KeptOverrides(p.overrides.value) == p.overrides.value)
    && CleanMapping(p.mapping) == Ok(p.mapping)
  }

  lemma PreparedIsOk(request: AssignRequest, loaded: Result<Blueprint, StoreError>)
    requires Prepare(request, loaded).Ok?
    ensures PreparedOk(Prepare(request, loaded).value)
  {
    hide NoteOk, RevisionOf, Blank, CleanMapping, OverridesOk, KeptOverrides;
    CleanMappingIsClean(request.mapping);
    if request.overrides.Some? {
      KeptIsClean(request.overrides.value);
    }
  }

  /** Storing keeps one assignment per room and, for a room that has one, its id. */
  lemma CommitKeeps(table: Assigned, p: Prepared, env: Env)
    requires StoreOk(table) && PreparedOk(p)
    requires PathSafe(env.freshId) && env.freshId !in table
    requires Commit(table, p, env).Ok?
    ensures var a := Commit(table, p, env).value;
            && StoreOk(table[a.id := a])
            && AssignmentOf(table[a.id := a], p.room) == Some(a.id)
            && (AssignmentOf(table, p.room).Some? ==> a.id == AssignmentOf(table, p.room).value)
            && (AssignmentOf(table, p.room).None? ==> a.id !in table)
  {
    hide PathSafe, CleanMapping, OverridesOk, KeptOverrides;
    var a := Commit(table, p, env).value;
    NothingIsClean();
    var after := table[a.id := a];
    assert a.room == p.room;
    assert after[a.id].room == p.room;
  }

  /** What is stored is what was prepared, under the room's id if it has one, with the overrides it had where none
    * are given. */
  lemma CommitStoresPrepared(table: Assigned, p: Prepared, env: Env)
    requires Commit(table, p, env).Ok?
    ensures var a := Commit(table, p, env).value;
            && a.blueprintId == p.blueprintId && a.revision == p.revision && a.room == p.room && a.roomName == p.roomName
            && a.mapping == p.mapping && a.note == p.note && a.takenAt == env.clock
            && (p.overrides.Some? ==> a.overrides == p.overrides.value)
  {
  }

  lemma CommitSucceedsWhen(table: Assigned, p: Prepared, env: Env)
    ensures Commit(table, p, env).Ok? <==>
            && PathSafe(env.project) && env.saved
            && (|table| < MAX_ASSIGNMENTS_PER_PROJECT || exists id :: id in table && table[id].room == p.room)
  {
    hide PathSafe;
  }

  lemma NothingIsClean()
    ensures OverridesOk([]) && KeptOverrides([]) == []
  {
  }

  lemma UnassignKeeps(table: Assigned, id: string)
    requires StoreOk(table)
    ensures StoreOk(table - {id})
  {
    hide AssignmentOk;
  }
}
