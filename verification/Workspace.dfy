/** Runs of the two stores side by side, each behind its own lock. An assignment loads its blueprint and
  * pins a revision before it takes the assignment lock, so between the load and the write any number of
  * blueprint writes may run: here the load is any earlier state of the run.
  */
module Workspace {

  import opened Wrappers
  import opened Text
  import opened Blueprints
  import R = BlueprintRuns
  import opened Assignments

  datatype State = State(blueprints: Docs, table: Assigned)

  datatype Event =
    | BlueprintTurn(turn: R.Turn)
    | AssignTurn(request: AssignRequest, loadedAt: nat, env: Env)
    | UnassignTurn(id: string, env: Env)

  /** What an assignment has prepared when it takes its lock at turn k: judged on the blueprint as it was
    * when it was loaded. */
  function PreparedBy(states: seq<State>, event: Event): Result<Prepared, StoreError>
    requires event.AssignTurn? && event.loadedAt < |states|
  {
    Prepare(event.request, Load(states[event.loadedAt].blueprints, event.env.project, event.request.blueprintId))
  }

  /** The assignment a turn stores, if it stores one. */
  ghost function StoredBy(states: seq<State>, event: Event, now: Assigned): Option<Assignment>
    requires event.AssignTurn? ==> event.loadedAt < |states|
  {
    if !event.AssignTurn? || PreparedBy(states, event).Err? then None
    else
      var r := Commit(now, PreparedBy(states, event).value, event.env);
      if r.Ok? then Some(r.value) else None
  }

  ghost function NextTable(states: seq<State>, event: Event, now: Assigned): Assigned
    requires event.AssignTurn? ==> event.loadedAt < |states|
  {
    match event
    case BlueprintTurn(_) => now
    case AssignTurn(_, _, _) =>
      var stored := StoredBy(states, event, now);
      if stored.Some? then now[stored.value.id := stored.value] else now
    case UnassignTurn(id, env) => if Unassign(now, id, env).Ok? then now - {id} else now
  }

  function TurnOf(event: Event): R.Turn {
    if event.BlueprintTurn? then event.turn else R.Idle
  }

  /** Ids made for new records are free; an assignment's load came no later than its write. */
  ghost predicate Enabled(states: seq<State>, events: seq<Event>, k: nat)
    requires k < |events| && |states| == |events| + 1
  {
    && R.Enabled(states[k].blueprints, TurnOf(events[k]))
    && (events[k].AssignTurn? ==>
          events[k].loadedAt <= k && PathSafe(events[k].env.freshId) && events[k].env.freshId !in states[k].table)
  }

  ghost predicate Run(states: seq<State>, events: seq<Event>) {
    && |states| == |events| + 1
    && states[0] == State(map[], map[])
    && forall k :: 0 <= k < |events| ==>
         && Enabled(states, events, k)
         && states[k + 1] == State(R.Next(states[k].blueprints, TurnOf(events[k])), NextTable(states, events[k], states[k].table))
  }

  // ---------------------------------------------------------------- runs cut off by crashes

  /** The event on a disk that takes its write. */
  function Taken(event: Event): Event {
    match event
    case BlueprintTurn(turn) => BlueprintTurn(R.Taken(turn))
    case AssignTurn(request, loadedAt, env) => AssignTurn(request, loadedAt, env.(saved := true))
    case UnassignTurn(id, env) => UnassignTurn(id, env.(saved := true))
  }

  ghost function NextState(states: seq<State>, event: Event, now: State): State
    requires event.AssignTurn? ==> event.loadedAt < |states|
  {
    State(R.Next(now.blueprints, TurnOf(event)), NextTable(states, event, now.table))
  }

  /** A run of both stores in which any operation may be cut off anywhere: a restart finds both as they were,
    * or as the operation makes them. */
  ghost predicate CutRun(states: seq<State>, asked: seq<Event>) {
    && |states| == |asked| + 1
    && states[0] == State(map[], map[])
    && forall k :: 0 <= k < |asked| ==>
         && Enabled(states, asked, k)
         && (states[k + 1] == states[k] || states[k + 1] == NextState(states, Taken(asked[k]), states[k]))
  }

  function Settled(states: seq<State>, asked: seq<Event>): (events: seq<Event>)
    requires |states| == |asked| + 1
    ensures |events| == |asked|
  {
    seq(|asked|, k requires 0 <= k < |asked| => if states[k + 1] == states[k] then BlueprintTurn(R.Idle) else Taken(asked[k]))
  }

  /** A run of both stores cut off and restarted any number of times is a run. */
  lemma CutRunIsRun(states: seq<State>, asked: seq<Event>)
    requires CutRun(states, asked)
    ensures Run(states, Settled(states, asked))
  {
    hide PathSafe;
    var events := Settled(states, asked);
    forall k | 0 <= k < |events|
      ensures Enabled(states, events, k)
      ensures states[k + 1] == State(R.Next(states[k].blueprints, TurnOf(events[k])), NextTable(states, events[k], states[k].table))
    {
      assert Enabled(states, asked, k);
      hide NextTable;
      NoTurnKeeps(states, states[k].table);
    }
  }

  lemma NoTurnKeeps(states: seq<State>, now: Assigned)
    ensures NextTable(states, BlueprintTurn(R.Idle), now) == now
  {
  }

  // ---------------------------------------------------------------- the blueprint side of a run

  function BlueprintStates(states: seq<State>): (bs: seq<Docs>)
    ensures |bs| == |states|
  {
    seq(|states|, k requires 0 <= k < |states| => states[k].blueprints)
  }

  function BlueprintTurns(events: seq<Event>): (ts: seq<R.Turn>)
    ensures |ts| == |events|
  {
    seq(|events|, k requires 0 <= k < |events| => TurnOf(events[k]))
  }

  lemma BlueprintSide(states: seq<State>, events: seq<Event>)
    requires Run(states, events)
    ensures R.Run(BlueprintStates(states), BlueprintTurns(events))
  {
    hide R.Enabled, R.Next, NextTable;
    var bs, ts := BlueprintStates(states), BlueprintTurns(events);
    forall k | 0 <= k < |ts|
      ensures R.Enabled(bs[k], ts[k]) && bs[k + 1] == R.Next(bs[k], ts[k])
    {
      assert Enabled(states, events, k);
    }
  }

  /** Along a run a blueprint stays on file and only grows. */
  lemma BlueprintGrows(states: seq<State>, events: seq<Event>, id: string, i: nat, j: nat)
    requires Run(states, events) && i <= j < |states| && id in states[i].blueprints
    ensures id in states[j].blueprints && R.Grew(states[i].blueprints[id], states[j].blueprints[id])
    ensures states[i].blueprints[id].id == id && BlueprintOk(states[i].blueprints[id])
  {
    hide Run, R.Run, R.Grew, BlueprintOk;
    BlueprintSide(states, events);
    R.HistoryGrows(BlueprintStates(states), BlueprintTurns(events), id, i, j);
    R.RunKeepsStore(BlueprintStates(states), BlueprintTurns(events), i);
  }

  /** A revision once on file is found under its number in every later state, with the same content. */
  lemma RevisionIsStable(earlier: Blueprint, later: Blueprint, number: nat)
    requires BlueprintOk(earlier) && BlueprintOk(later) && Extends(earlier, later)
    requires RevisionOf(earlier, number).Some?
    ensures RevisionOf(later, number) == RevisionOf(earlier, number)
  {
    hide QueueOk, PathSafe, CleanName;
    FindByPlace(earlier.revisions, 1, number);
    FindByPlace(later.revisions, 1, number);
  }

  // ---------------------------------------------------------------- the assignment side of a run

  lemma TurnKeepsTable(states: seq<State>, event: Event, now: Assigned)
    requires StoreOk(now)
    requires event.AssignTurn? ==> event.loadedAt < |states| && PathSafe(event.env.freshId) && event.env.freshId !in now
    ensures StoreOk(NextTable(states, event, now))
  {
    hide StoreOk, PathSafe, Load, PreparedOk;
    if event.AssignTurn? && StoredBy(states, event, now).Some? {
      PreparedIsOk(event.request, Load(states[event.loadedAt].blueprints, event.env.project, event.request.blueprintId));
      CommitKeeps(now, PreparedBy(states, event).value, event.env);
    } else if event.UnassignTurn? {
      UnassignKeeps(now, event.id);
    }
  }

  lemma {:induction false} TableIsOk(states: seq<State>, events: seq<Event>, k: nat)
    requires Run(states, events) && k < |states|
    ensures StoreOk(states[k].table)
  {
    hide StoreOk, R.Enabled, R.Next, NextTable;
    if k == 0 {
      EmptyTableIsOk();
    } else {
      TableIsOk(states, events, k - 1);
      assert Enabled(states, events, k - 1);
      TurnKeepsTable(states, events[k - 1], states[k - 1].table);
    }
  }

  lemma EmptyTableIsOk()
    ensures StoreOk(map[])
  {
  }

  /** One assignment across one turn: it was stored then, or it was there before. */
  lemma TurnStoresOne(states: seq<State>, event: Event, now: Assigned, id: string)
    requires event.AssignTurn? ==> event.loadedAt < |states|
    ensures id in NextTable(states, event, now) ==>
            var a := NextTable(states, event, now)[id];
            || (event.AssignTurn? && StoredBy(states, event, now) == Some(a) && a.id == id)
            || (id in now && a == now[id])
  {
    hide StoredBy, Unassign;
  }

  // ---------------------------------------------------------------- pins

  /** What a stored assignment pinned, in the blueprint its own request loaded. */
  ghost predicate PinnedFrom(loaded: Docs, a: Assignment) {
    && a.blueprintId in loaded && loaded[a.blueprintId].inUse
    && RevisionOf(loaded[a.blueprintId], a.revision).Some?
  }

  /** An assignment says what this request asked for of the blueprint it loaded. */
  ghost predicate AsRequested(a: Assignment, request: AssignRequest, loaded: Blueprint, clock: string) {
    && a.blueprintId == loaded.id == request.blueprintId
    && a.revision == (if request.revision.Some? then request.revision.value else loaded.currentRevision)
    && a.room == request.room && a.roomName == request.roomName && a.takenAt == clock
    && MappingAsked(request.mapping, a.mapping) && NoteAsked(request.note, a.note)
  }

  lemma StoredIsAsRequested(states: seq<State>, event: Event, now: Assigned)
    requires event.AssignTurn? && event.loadedAt < |states|
    ensures var stored, blueprints := StoredBy(states, event, now), states[event.loadedAt].blueprints;
            stored.Some? && R.StoreOk(blueprints) ==>
              && PinnedFrom(blueprints, stored.value)
              && event.request.blueprintId in blueprints
              && AsRequested(stored.value, event.request, blueprints[event.request.blueprintId], event.env.clock)
  {
    if StoredBy(states, event, now).Some? {
      var loaded := Load(states[event.loadedAt].blueprints, event.env.project, event.request.blueprintId);
      PrepareIsAsked(event.request, loaded);
      CommitStoresPrepared(now, PreparedBy(states, event).value, event.env);
    }
    hide Commit, MappingAsked, NoteAsked, BlueprintOk, PathSafe, RevisionOf, Assignments.RequestOk, CleanMapping, KeptOverrides;
  }

  /** Every stored assignment goes back to a load, earlier in the run, of a blueprint that was in use and
    * had the revision it pins. */
  lemma {:induction false} PinHasLoad(states: seq<State>, events: seq<Event>, k: nat, id: string) returns (loadedAt: nat)
    requires Run(states, events) && k < |states| && id in states[k].table
    ensures loadedAt <= k && PinnedFrom(states[loadedAt].blueprints, states[k].table[id])
  {
    hide PinnedFrom, AsRequested, R.Enabled, R.Next, R.StoreOk, NextTable, StoredBy, R.Run;
    var now, event := states[k - 1].table, events[k - 1];
    assert Enabled(states, events, k - 1);
    TurnStoresOne(states, event, now, id);
    if id in now && states[k].table[id] == now[id] {
      loadedAt := PinHasLoad(states, events, k - 1, id);
    } else {
      loadedAt := event.loadedAt;
      BlueprintSide(states, events);
      R.RunKeepsStore(BlueprintStates(states), BlueprintTurns(events), loadedAt);
      StoredIsAsRequested(states, event, now);
    }
  }

  /** Pins are stable across the two stores and their separate locks. In every interleaving, whatever ran
    * between the load and the write and whatever runs afterwards, the revision a stored assignment pins
    * is on file in every later state, and it is the revision that was there when it was loaded. */
  lemma PinsAreStable(states: seq<State>, events: seq<Event>, k: nat, id: string) returns (loadedAt: nat)
    requires Run(states, events) && k < |states| && id in states[k].table
    ensures var a := states[k].table[id];
            && loadedAt <= k && PinnedFrom(states[loadedAt].blueprints, a)
            && forall j :: loadedAt <= j < |states| ==>
                 && a.blueprintId in states[j].blueprints
                 && RevisionOf(states[j].blueprints[a.blueprintId], a.revision)
                    == RevisionOf(states[loadedAt].blueprints[a.blueprintId], a.revision)
  {
    hide Run, RevisionOf, BlueprintOk;
    loadedAt := PinHasLoad(states, events, k, id);
    var a := states[k].table[id];
    forall j | loadedAt <= j < |states|
      ensures a.blueprintId in states[j].blueprints
      ensures RevisionOf(states[j].blueprints[a.blueprintId], a.revision)
           == RevisionOf(states[loadedAt].blueprints[a.blueprintId], a.revision)
    {
      BlueprintGrows(states, events, a.blueprintId, loadedAt, j);
      BlueprintGrows(states, events, a.blueprintId, j, j);
      hide Extends;
      RevisionIsStable(states[loadedAt].blueprints[a.blueprintId], states[j].blueprints[a.blueprintId], a.revision);
    }
  }

  /** The in-use check holds only at the load. A request prepared before a blueprint is retired is stored
    * after it all the same, while one that loads it afterwards is refused. */
  lemma RetiredAfterLoad(b: Blueprint, base: string, clock: string, request: AssignRequest, table: Assigned, env: Env)
    requires Prepare(request, Ok(b)).Ok? && base == b.takenAt
    requires PathSafe(env.project) && env.saved && |table| < MAX_ASSIGNMENTS_PER_PROJECT
    ensures var retired := Edit(b, Op.Update(b.id, base, None, None, Some(false)), clock);
            && retired.Ok? && !retired.value.inUse
            && Commit(table, Prepare(request, Ok(b)).value, env).Ok?
            && Commit(table, Prepare(request, Ok(b)).value, env).value.blueprintId == retired.value.id
            && Prepare(request, Ok(retired.value)) == Err(Invalid)
  {
    hide RevisionOf, PathSafe, Assignments.RequestOk, CleanMapping, KeptOverrides, AssignmentOf, NextStamp;
  }

  // ---------------------------------------------------------------- one assignment per room

  /** In every state of every run a room has at most one assignment and every record is under its id. */
  lemma OneAssignmentPerRoom(states: seq<State>, events: seq<Event>, k: nat, id: string, other: string)
    requires Run(states, events) && k < |states|
    requires id in states[k].table && other in states[k].table
    ensures states[k].table[id].room == states[k].table[other].room ==> id == other
    ensures states[k].table[id].id == id
  {
    TableIsOk(states, events, k);
    hide Run, AssignmentOk;
  }

  /** Assigning a room again keeps the id of its assignment. */
  lemma ReassigningKeepsId(states: seq<State>, events: seq<Event>, k: nat, id: string)
    requires Run(states, events) && k < |events| && id in states[k].table
    requires events[k].AssignTurn? && events[k].loadedAt <= k
    requires StoredBy(states, events[k], states[k].table).Some?
    requires StoredBy(states, events[k], states[k].table).value.room == states[k].table[id].room
    ensures StoredBy(states, events[k], states[k].table).value.id == id
  {
    hide R.Enabled, R.Next, AssignmentOk;
    TableIsOk(states, events, k);
    assert Enabled(states, events, k);
    hide Run;
    PreparedIsOk(events[k].request, Load(states[events[k].loadedAt].blueprints, events[k].env.project, events[k].request.blueprintId));
    CommitKeeps(states[k].table, PreparedBy(states, events[k]).value, events[k].env);
  }

  // ---------------------------------------------------------------- overrides

  /** What a turn says of a room's overrides: an explicit list, cleaned, or nothing. */
  function ExplicitBy(event: Event): Option<seq<ItemOverride>>
    requires event.AssignTurn?
  {
    if event.request.overrides.Some? then Some(KeptOverrides(event.request.overrides.value)) else None
  }

  /** What one turn makes of the overrides a room should have. */
  ghost function WantedAfter(states: seq<State>, event: Event, now: Assigned, room: RoomKey,
                             before: Option<seq<ItemOverride>>): Option<seq<ItemOverride>>
    requires event.AssignTurn? ==> event.loadedAt < |states|
  {
    if event.AssignTurn? && StoredBy(states, event, now).Some? && event.request.room == room then
      if ExplicitBy(event).Some? then ExplicitBy(event)
      else if before.Some? then before
      else Some([])
    else if event.UnassignTurn? && Unassign(now, event.id, event.env).Ok? && now[event.id].room == room then None
    else before
  }

  /** The overrides a room should have after k turns: the cleaned form of the last list any assignment of
    * it gave, counting from when it was last without one; none if no list was given. A load that comes
    * after its own write, which no run has, makes it none. */
  ghost function Wanted(states: seq<State>, events: seq<Event>, room: RoomKey, k: nat): Option<seq<ItemOverride>>
    requires |states| == |events| + 1 && k < |states|
  {
    if k == 0 || (events[k - 1].AssignTurn? && events[k - 1].loadedAt >= k) then None
    else WantedAfter(states, events[k - 1], states[k - 1].table, room, Wanted(states, events, room, k - 1))
  }

  /** The overrides of a room as the table has them. */
  ghost function Has(table: Assigned, room: RoomKey): Option<seq<ItemOverride>> {
    var id := AssignmentOf(table, room);
    if id.Some? then Some(table[id.value].overrides) else None
  }

  lemma HasIs(table: Assigned, room: RoomKey, id: string)
    requires OnePerRoom(table) && id in table && table[id].room == room
    ensures AssignmentOf(table, room) == Some(id) && Has(table, room) == Some(table[id].overrides)
  {
  }

  lemma HasNone(table: Assigned, room: RoomKey)
    requires forall id :: id in table ==> table[id].room != room
    ensures Has(table, room) == None
  {
  }

  /** Storing changes the overrides of the request's room as `Wanted` says, and of no other room. */
  lemma StoringSetsOverrides(table: Assigned, p: Prepared, env: Env, room: RoomKey)
    requires StoreOk(table) && PreparedOk(p) && PathSafe(env.freshId) && env.freshId !in table
    requires Commit(table, p, env).Ok?
    ensures var a := Commit(table, p, env).value;
            && StoreOk(table[a.id := a])
            && Has(table[a.id := a], room)
               == (if p.room != room then Has(table, room)
                   else if p.overrides.Some? then p.overrides
                   else if Has(table, room).Some? then Has(table, room)
                   else Some([]))
  {
    hide AssignmentOk, PreparedOk, PathSafe;
    var a := Commit(table, p, env).value;
    var after := table[a.id := a];
    CommitKeeps(table, p, env);
    if p.room == room {
      HasIs(after, room, a.id);
      if AssignmentOf(table, room).Some? {
        HasIs(table, room, a.id);
      }
    } else if AssignmentOf(table, room).Some? {
      var id := AssignmentOf(table, room).value;
      assert id != a.id;
      HasIs(after, room, id);
    } else {
      HasNone(after, room);
    }
  }

  lemma RemovingClears(table: Assigned, id: string, room: RoomKey)
    requires StoreOk(table) && id in table
    ensures Has(table - {id}, room) == if table[id].room == room then None else Has(table, room)
  {
    hide AssignmentOk;
    var after := table - {id};
    if table[id].room == room {
      HasNone(after, room);
    } else if AssignmentOf(table, room).Some? {
      HasIs(after, room, AssignmentOf(table, room).value);
    } else {
      HasNone(after, room);
    }
  }

  lemma TurnSetsOverrides(states: seq<State>, event: Event, now: Assigned, room: RoomKey)
    requires StoreOk(now)
    requires event.AssignTurn? ==> event.loadedAt < |states| && PathSafe(event.env.freshId) && event.env.freshId !in now
    ensures Has(NextTable(states, event, now), room) == WantedAfter(states, event, now, room, Has(now, room))
  {
    hide StoreOk, Has, PreparedOk, PathSafe;
    if event.AssignTurn? && StoredBy(states, event, now).Some? {
      var loaded := Load(states[event.loadedAt].blueprints, event.env.project, event.request.blueprintId);
      PreparedIsOk(event.request, loaded);
      PreparedSays(event.request, loaded);
      hide Load, Prepare, Commit;
      StoringSetsOverrides(now, PreparedBy(states, event).value, event.env, room);
    } else if event.UnassignTurn? && Unassign(now, event.id, event.env).Ok? {
      RemovingClears(now, event.id, room);
    }
  }

  /** In every run, a room that has an assignment has the overrides it should: a client that sends no list
    * never clears them, and a list, even an empty one, replaces them. */
  lemma {:induction false} OverridesAreTheLastGiven(states: seq<State>, events: seq<Event>, room: RoomKey, k: nat)
    requires Run(states, events) && k < |states|
    ensures Has(states[k].table, room) == Wanted(states, events, room, k)
  {
    hide R.Enabled, R.Next, StoreOk, Has, NextTable, WantedAfter, PathSafe;
    if k == 0 {
      HasNone(states[0].table, room);
    } else {
      OverridesAreTheLastGiven(states, events, room, k - 1);
      TableIsOk(states, events, k - 1);
      assert Enabled(states, events, k - 1);
      TurnSetsOverrides(states, events[k - 1], states[k - 1].table, room);
    }
  }

  lemma PreparedSays(request: AssignRequest, loaded: Result<Blueprint, StoreError>)
    requires Prepare(request, loaded).Ok?
    ensures var p := Prepare(request, loaded).value;
            && p.room == request.room
            && p.overrides == if request.overrides.Some? then Some(KeptOverrides(request.overrides.value)) else None
  {
    hide RevisionOf, Assignments.RequestOk, CleanMapping, KeptOverrides;
  }

  // ---------------------------------------------------------------- what an assignment says

  /** In every state of every run each assignment says what the last request stored for its room asked for: it pins
    * the revision that request named, or the one current at its load if it named none. */
  lemma {:induction false} AssignmentIsLastRequested(states: seq<State>, events: seq<Event>, k: nat, id: string) returns (at: nat)
    requires Run(states, events) && k < |states| && id in states[k].table
    ensures at < k && events[at].AssignTurn? && events[at].loadedAt <= at
    ensures StoredBy(states, events[at], states[at].table) == Some(states[k].table[id])
    ensures events[at].request.blueprintId in states[events[at].loadedAt].blueprints
    ensures AsRequested(states[k].table[id], events[at].request,
                        states[events[at].loadedAt].blueprints[events[at].request.blueprintId], events[at].env.clock)
    ensures forall j :: at < j < k ==> !StoresFor(states, events, j, states[k].table[id].room)
  {
    hide AsRequested, PinnedFrom, R.Enabled, R.Next, R.StoreOk, NextTable, StoredBy, R.Run;
    var now, event := states[k - 1].table, events[k - 1];
    assert Enabled(states, events, k - 1);
    TurnStoresOne(states, event, now, id);
    var a := states[k].table[id];
    if event.AssignTurn? && StoredBy(states, event, now) == Some(a) {
      at := k - 1;
      BlueprintSide(states, events);
      R.RunKeepsStore(BlueprintStates(states), BlueprintTurns(events), event.loadedAt);
      StoredIsAsRequested(states, event, now);
    } else {
      at := AssignmentIsLastRequested(states, events, k - 1, id);
      OtherRoomStored(states, events, k - 1, id);
    }
  }

  /** Turn j stored an assignment for this room. */
  ghost predicate StoresFor(states: seq<State>, events: seq<Event>, j: nat, room: RoomKey)
    requires |states| == |events| + 1 && j < |events|
  {
    events[j].AssignTurn? && events[j].loadedAt <= j && StoredBy(states, events[j], states[j].table).Some?
    && StoredBy(states, events[j], states[j].table).value.room == room
  }

  /** A turn after which a room's assignment is as before stored none for that room, unless it stored the same. */
  lemma OtherRoomStored(states: seq<State>, events: seq<Event>, k: nat, id: string)
    requires Run(states, events) && k < |events| && id in states[k].table && id in states[k + 1].table
    requires states[k + 1].table[id] == states[k].table[id]
    requires events[k].AssignTurn? ==> events[k].loadedAt <= k
    requires !(events[k].AssignTurn? && StoredBy(states, events[k], states[k].table) == Some(states[k + 1].table[id]))
    ensures !StoresFor(states, events, k, states[k].table[id].room)
  {
    hide R.Enabled, R.Next, StoredBy, R.Run;
    if StoresFor(states, events, k, states[k].table[id].room) {
      ReassigningKeepsId(states, events, k, id);
    }
  }

  // ---------------------------------------------------------------- which rooms have an assignment

  ghost predicate HasRoom(table: Assigned, room: RoomKey) {
    exists id :: id in table && table[id].room == room
  }

  /** Turn j took the room's assignment away: it was asked to, for a project and on a disk that allow it. */
  ghost predicate TakenAway(states: seq<State>, events: seq<Event>, j: nat, room: RoomKey)
    requires |states| == |events| + 1 && j < |events|
  {
    && events[j].UnassignTurn? && PathSafe(events[j].env.project) && events[j].env.saved
    && events[j].id in states[j].table && states[j].table[events[j].id].room == room
  }

  /** The room was assigned at some turn, and no later one took that away. */
  ghost predicate AssignedSince(states: seq<State>, events: seq<Event>, k: nat, room: RoomKey)
    requires |states| == |events| + 1 && k < |states|
  {
    exists j: nat :: j < k && StoresFor(states, events, j, room)
                     && forall m: nat :: j < m < k ==> !TakenAway(states, events, m, room)
  }

  lemma SinceGrows(states: seq<State>, events: seq<Event>, k: nat, room: RoomKey)
    requires |states| == |events| + 1 && k < |events|
    ensures AssignedSince(states, events, k + 1, room) <==>
            StoresFor(states, events, k, room) || (AssignedSince(states, events, k, room) && !TakenAway(states, events, k, room))
  {
    hide StoresFor, TakenAway;
  }

  /** The room should have overrides, empty ones included, exactly while it is assigned. */
  lemma {:induction false} WantedSince(states: seq<State>, events: seq<Event>, k: nat, room: RoomKey)
    requires Run(states, events) && k < |states|
    ensures Wanted(states, events, room, k).Some? <==> AssignedSince(states, events, k, room)
  {
    hide R.Enabled, R.Next, AssignmentOk, NextTable, PathSafe, Prepare, Load;
    if k > 0 {
      var event, now := events[k - 1], states[k - 1].table;
      WantedSince(states, events, k - 1, room);
      SinceGrows(states, events, k - 1, room);
      assert Enabled(states, events, k - 1);
      TableIsOk(states, events, k - 1);
      hide AssignedSince, Run;
      if event.AssignTurn? && StoredBy(states, event, now).Some? {
        PreparedSays(event.request, Load(states[event.loadedAt].blueprints, event.env.project, event.request.blueprintId));
      } else if event.UnassignTurn? && event.id in now {
        assert AssignmentOk(now[event.id]);
        SafeId(now[event.id]);
      }
    }
  }

  lemma SafeId(a: Assignment)
    requires AssignmentOk(a)
    ensures PathSafe(a.id)
  {
    hide PathSafe, OverridesOk, CleanMapping;
  }

  /** In every state of every run a room has an assignment if and only if a request stored one for it and nobody has
    * taken it away since. */
  lemma RoomHasOneIff(states: seq<State>, events: seq<Event>, k: nat, room: RoomKey)
    requires Run(states, events) && k < |states|
    ensures HasRoom(states[k].table, room) <==> AssignedSince(states, events, k, room)
  {
    hide Run, Wanted, AssignedSince;
    OverridesAreTheLastGiven(states, events, room, k);
    WantedSince(states, events, k, room);
  }
}
