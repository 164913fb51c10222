/** The blueprint document and what each write makes of it: append-only revisions, a review queue, and a
  * version stamp that every write must name. This is the specification; BlueprintStore carries it out on
  * a disk, and BlueprintRuns says what holds over whole runs.
  */
module Blueprints {

  import opened Wrappers
  import opened Text
  import opened Content

  const MAX_BLUEPRINTS_PER_PROJECT: nat := 5000
  const MAX_REVISIONS: nat := 500
  const MAX_PENDING: nat := 100
  const MAX_NAME_CHARS: nat := 120
  const MAX_NOTE_CHARS: nat := 2000

  datatype StoreError = Invalid | NotFound | Conflict | Internal

  datatype SourceRoom = SourceRoom(modelId: string, roomId: string, roomName: string)

  datatype Revision = Revision(number: nat, createdAt: string, note: Option<string>, content: Revised)

  /** One entry of the review queue, under the id `Push` gave it. The bundle is opaque. */
  datatype Pending = Pending(pendingId: nat, receivedAt: string, origin: Option<string>, note: Option<string>,
                             bundle: Option<string>, content: Revised)

  datatype Rejected = Rejected(rejectedAt: string, revision: Pending)

  datatype Blueprint = Blueprint(id: string, name: string, takenAt: string, source: Option<SourceRoom>,
                                 currentRevision: nat, inUse: bool, revisions: seq<Revision>,
                                 pending: seq<Pending>, rejected: seq<Rejected>, lastPendingId: nat)

  function RevisionOf(b: Blueprint, number: nat): Option<Revision> {
    FindRevision(b.revisions, number)
  }

  function FindRevision(revisions: seq<Revision>, number: nat): Option<Revision> {
    if revisions == [] then None
    else if revisions[0].number == number then Some(revisions[0])
    else FindRevision(revisions[1..], number)
  }

  /** The requests. Every one but Create and Push names the version it was made against. */
  datatype Op =
    | Create(name: string, source: Option<SourceRoom>, note: Option<string>, content: Revised)
    | AddRevision(id: string, base: string, note: Option<string>, makeCurrent: bool, content: Revised)
    | Push(id: string, origin: Option<string>, note: Option<string>, bundle: Option<string>, content: Revised)
    | Accept(id: string, pendingId: nat, base: string)
    | Reject(id: string, pendingId: nat, base: string)
    | Update(id: string, base: string, newName: Option<string>, current: Option<nat>, inUse: Option<bool>)

  predicate HasBase(op: Op) {
    op.AddRevision? || op.Accept? || op.Reject? || op.Update?
  }

  // ---------------------------------------------------------------- what is checked before the lock

  function CleanName(name: string): Result<string, StoreError> {
    var trimmed := Trim(name);
    if trimmed == "" || |trimmed| > MAX_NAME_CHARS then Err(Invalid) else Ok(trimmed)
  }

  function TrimNote(note: Option<string>): Option<string> {
    if note.Some? && Trim(note.value) != "" then Some(Trim(note.value)) else None
  }

  predicate NoteOk(note: Option<string>) {
    TrimNote(note).Some? ==> |TrimNote(note).value| <= MAX_NOTE_CHARS
  }

  ghost predicate RequestOk(op: Op) {
    match op
    case Create(name, _, note, content) => CleanName(name).Ok? && NoteOk(note) && ContentOk(content)
    case AddRevision(_, _, note, _, content) => NoteOk(note) && ContentOk(content)
    case Push(_, origin, note, _, content) => NoteOk(note) && NoteOk(origin) && ContentOk(content)
    case Accept(_, _, _) => true
    case Reject(_, _, _) => true
    case Update(_, _, newName, _, _) => newName.Some? ==> CleanName(newName.value).Ok?
  }

  // ---------------------------------------------------------------- one blueprint, one write

  function MaxNumber(revisions: seq<Revision>): nat {
    if revisions == [] then 0
    else
      var rest := MaxNumber(revisions[..|revisions| - 1]);
      var last := revisions[|revisions| - 1].number;
      if last > rest then last else rest
  }

  /** Where the pending revision with this id is, if it is waiting. */
  function Position(pending: seq<Pending>, pendingId: nat): (at: Option<nat>)
    ensures at.Some? ==> at.value < |pending| && pending[at.value].pendingId == pendingId
    ensures at.None? ==> forall k :: 0 <= k < |pending| ==> pending[k].pendingId != pendingId
  {
    if pending == [] then None
    else if pending[0].pendingId == pendingId then Some(0)
    else
      var rest := Position(pending[1..], pendingId);
      if rest.Some? then Some(rest.value + 1) else None
  }

  function Append(b: Blueprint, note: Option<string>, content: Revised, makeCurrent: bool, stamp: string): Blueprint {
    var number := MaxNumber(b.revisions) + 1;
    b.(takenAt := stamp,
       revisions := b.revisions + [Revision(number, stamp, note, content)],
       currentRevision := if makeCurrent then number else b.currentRevision)
  }

  /** What a write makes of the blueprint it has loaded, or why it refuses. */
  function Edit(b: Blueprint, op: Op, clock: string): Result<Blueprint, StoreError>
    requires !op.Create?
  {
    var stamp := NextStamp(b.takenAt, clock);
    match op
    case AddRevision(_, base, note, makeCurrent, content) =>
      if b.takenAt != base then Err(Conflict)
      else if |b.revisions| >= MAX_REVISIONS then Err(Invalid)
      else Ok(Append(b, TrimNote(note), content, makeCurrent, stamp))
    case Push(_, origin, note, bundle, content) =>
      if |b.pending| >= MAX_PENDING then Err(Invalid)
      else
        var pendingId := b.lastPendingId + 1;
        var pushed := Pending(pendingId, stamp, TrimNote(origin), TrimNote(note), bundle, content);
        Ok(b.(lastPendingId := pendingId, takenAt := stamp, pending := b.pending + [pushed]))
    case Accept(_, pendingId, base) =>
      if b.takenAt != base then Err(Conflict)
      else if |b.revisions| >= MAX_REVISIONS then Err(Invalid)
      else
        var at := Position(b.pending, pendingId);
        if at.None? then Err(Invalid)
        else
          var taken := b.pending[at.value];
          var rest := b.pending[..at.value] + b.pending[at.value + 1..];
          Ok(Append(b.(pending := rest), taken.note, taken.content, true, stamp))
    case Reject(_, pendingId, base) =>
      if b.takenAt != base then Err(Conflict)
      else
        var at := Position(b.pending, pendingId);
        if at.None? then Err(Invalid)
        else
          var declined := b.pending[at.value].(bundle := None);
          var rest := b.pending[..at.value] + b.pending[at.value + 1..];
          Ok(b.(pending := rest, takenAt := stamp, rejected := b.rejected + [Rejected(stamp, declined)]))
    case Update(_, base, newName, current, inUse) =>
      if b.takenAt != base then Err(Conflict)
      else if current.Some? && RevisionOf(b, current.value).None? then Err(Invalid)
      else
        Ok(b.(currentRevision := if current.Some? then current.value else b.currentRevision,
              name := if newName.Some? && CleanName(newName.value).Ok? then CleanName(newName.value).value else b.name,
              inUse := if inUse.Some? then inUse.value else b.inUse,
              takenAt := stamp))
  }

  function FirstRevision(id: string, name: string, source: Option<SourceRoom>, note: Option<string>, content: Revised,
                         clock: string): Blueprint {
    Blueprint(id, name, clock, source, 1, true, [Revision(1, clock, note, content)], [], [], 0)
  }

  // ---------------------------------------------------------------- the whole store, one request

  /** What a request meets: the clock, the id a new blueprint gets, and whether the disk takes the write. */
  datatype Env = Env(project: string, clock: string, freshId: string, saved: bool)

  type Docs = map<string, Blueprint>

  function Load(docs: Docs, project: string, id: string): Result<Blueprint, StoreError> {
    if !PathSafe(id) || !PathSafe(project) then Err(Invalid)
    else if id !in docs then Err(NotFound)
    else Ok(docs[id])
  }

  /** What the request would write. */
  ghost function Outcome(docs: Docs, op: Op, env: Env): Result<Blueprint, StoreError> {
    if !RequestOk(op) then Err(Invalid)
    else if op.Create? then
      if !PathSafe(env.project) || |docs| >= MAX_BLUEPRINTS_PER_PROJECT then Err(Invalid)
      else Ok(FirstRevision(env.freshId, CleanName(op.name).value, op.source, TrimNote(op.note), op.content, env.clock))
    else
      var loaded := Load(docs, env.project, op.id);
      if loaded.Err? then loaded else Edit(loaded.value, op, env.clock)
  }

  ghost function Answer(docs: Docs, op: Op, env: Env): Result<Blueprint, StoreError> {
    var outcome := Outcome(docs, op, env);
    if outcome.Ok? && !env.saved then Err(Internal) else outcome
  }

  ghost function Step(docs: Docs, op: Op, env: Env): Docs {
    var answer := Answer(docs, op, env);
    if answer.Ok? then docs[answer.value.id := answer.value] else docs
  }

  // ---------------------------------------------------------------- what every write keeps

  ghost predicate Numbered(revisions: seq<Revision>) {
    && (forall k :: 0 <= k < |revisions| ==> revisions[k].number == k + 1)
    && (forall k :: 0 <= k < |revisions| ==> ContentOk(revisions[k].content))
  }

  ghost predicate QueueOk(pending: seq<Pending>, rejected: seq<Rejected>, last: nat) {
    && (forall k :: 0 <= k < |pending| ==> 1 <= pending[k].pendingId <= last && ContentOk(pending[k].content))
    && (forall j, k :: 0 <= j < k < |pending| ==> pending[j].pendingId < pending[k].pendingId)
    && (forall k :: 0 <= k < |rejected| ==> 1 <= rejected[k].revision.pendingId <= last)
    && (forall j, k :: 0 <= j < k < |rejected| ==> rejected[j].revision.pendingId != rejected[k].revision.pendingId)
    && (forall j, k :: 0 <= j < |pending| && 0 <= k < |rejected| ==> pending[j].pendingId != rejected[k].revision.pendingId)
    && (forall k :: 0 <= k < |rejected| ==> rejected[k].revision.bundle.None?)
  }

  /** Revisions are numbered 1..n in order, one of them is current, and every id handed out is at most
    * once in the queue or among the rejected. */
  ghost predicate BlueprintOk(b: Blueprint) {
    && PathSafe(b.id)
    && CleanName(b.name) == Ok(b.name)
    && 1 <= |b.revisions| <= MAX_REVISIONS && Numbered(b.revisions)
    && 1 <= b.currentRevision <= |b.revisions|
    && |b.pending| <= MAX_PENDING
    && QueueOk(b.pending, b.rejected, b.lastPendingId)
  }

  lemma {:induction false} MaxIsCount(revisions: seq<Revision>)
    requires forall k :: 0 <= k < |revisions| ==> revisions[k].number == k + 1
    ensures MaxNumber(revisions) == |revisions|
  {
    if revisions != [] {
      MaxIsCount(revisions[..|revisions| - 1]);
    }
  }

  /** In a numbered history a number names the revision at its place, and nothing else. */
  lemma {:induction false} FindByPlace(revisions: seq<Revision>, start: nat, number: nat)
    requires forall k :: 0 <= k < |revisions| ==> revisions[k].number == start + k
    ensures FindRevision(revisions, number)
         == if start <= number < start + |revisions| then Some(revisions[number - start]) else None
  {
    if revisions != [] {
      assert forall k :: 0 <= k < |revisions| - 1 ==> revisions[1..][k] == revisions[k + 1];
      FindByPlace(revisions[1..], start + 1, number);
    }
  }

  lemma CleanNameIsClean(name: string)
    requires CleanName(name).Ok?
    ensures CleanName(CleanName(name).value) == CleanName(name)
  {
    TrimIsIdempotent(name);
  }

  lemma AppendKeeps(b: Blueprint, note: Option<string>, content: Revised, makeCurrent: bool, stamp: string)
    requires BlueprintOk(b) && |b.revisions| < MAX_REVISIONS && ContentOk(content)
    ensures BlueprintOk(Append(b, note, content, makeCurrent, stamp))
  {
    hide ContentOk, QueueOk, PathSafe, CleanName;
    MaxIsCount(b.revisions);
  }

  lemma QueueLosesOne(pending: seq<Pending>, rejected: seq<Rejected>, last: nat, at: nat)
    requires QueueOk(pending, rejected, last) && at < |pending|
    ensures QueueOk(pending[..at] + pending[at + 1..], rejected, last)
  {
    hide ContentOk;
  }

  lemma QueueMovesOne(pending: seq<Pending>, rejected: seq<Rejected>, last: nat, at: nat, stamp: string)
    requires QueueOk(pending, rejected, last) && at < |pending|
    ensures QueueOk(pending[..at] + pending[at + 1..], rejected + [Rejected(stamp, pending[at].(bundle := None))], last)
  {
    hide ContentOk;
    QueueLosesOne(pending, rejected, last, at);
  }

  lemma QueueGainsOne(pending: seq<Pending>, rejected: seq<Rejected>, last: nat, pushed: Pending)
    requires QueueOk(pending, rejected, last) && pushed.pendingId == last + 1 && ContentOk(pushed.content)
    ensures QueueOk(pending + [pushed], rejected, last + 1)
  {
    hide ContentOk;
  }

  /** Every write that succeeds keeps the invariant and moves the stamp strictly forward. */
  lemma EditKeeps(b: Blueprint, op: Op, clock: string)
    requires !op.Create? && RequestOk(op) && BlueprintOk(b) && Edit(b, op, clock).Ok?
    ensures BlueprintOk(Edit(b, op, clock).value)
    ensures Edit(b, op, clock).value.id == b.id
    ensures Before(b.takenAt, Edit(b, op, clock).value.takenAt)
  {
    hide ContentOk, QueueOk, PathSafe, NextStamp;
    var stamp := NextStamp(b.takenAt, clock);
    NextStampGrows(b.takenAt, clock);
    match op
    case AddRevision(_, _, note, makeCurrent, content) =>
      AppendKeeps(b, TrimNote(note), content, makeCurrent, stamp);
    case Push(_, origin, note, bundle, content) =>
      QueueGainsOne(b.pending, b.rejected, b.lastPendingId,
                    Pending(b.lastPendingId + 1, stamp, TrimNote(origin), TrimNote(note), bundle, content));
    case Accept(_, pendingId, _) =>
      var at := Position(b.pending, pendingId).value;
      QueueLosesOne(b.pending, b.rejected, b.lastPendingId, at);
      PendingContentOk(b, at);
      AppendKeeps(b.(pending := b.pending[..at] + b.pending[at + 1..]), b.pending[at].note, b.pending[at].content, true, stamp);
    case Reject(_, pendingId, _) =>
      var at := Position(b.pending, pendingId).value;
      QueueMovesOne(b.pending, b.rejected, b.lastPendingId, at, stamp);
    case Update(_, _, newName, current, _) =>
      if current.Some? {
        FindByPlace(b.revisions, 1, current.value);
      }
      if newName.Some? {
        CleanNameIsClean(newName.value);
      }
  }

  lemma PendingContentOk(b: Blueprint, at: nat)
    requires BlueprintOk(b) && at < |b.pending|
    ensures ContentOk(b.pending[at].content)
  {
    hide ContentOk;
  }

  lemma FirstRevisionOk(op: Op, id: string, clock: string)
    requires op.Create? && RequestOk(op) && PathSafe(id)
    ensures BlueprintOk(FirstRevision(id, CleanName(op.name).value, op.source, TrimNote(op.note), op.content, clock))
  {
    hide ContentOk, PathSafe;
    CleanNameIsClean(op.name);
  }

  // ---------------------------------------------------------------- what every write only adds to

  /** `later` is `earlier` with revisions appended and nothing of its history changed. */
  ghost predicate Extends(earlier: Blueprint, later: Blueprint) {
    && later.id == earlier.id
    && later.source == earlier.source
    && earlier.revisions <= later.revisions
    && earlier.rejected <= later.rejected
    && earlier.lastPendingId <= later.lastPendingId
    // What still waits has not changed since it arrived, and what arrived since has a later id.
    && (forall k :: 0 <= k < |later.pending| ==>
          later.pending[k] in earlier.pending || later.pending[k].pendingId > earlier.lastPendingId)
  }

  lemma ExtendsIsTransitive(a: Blueprint, b: Blueprint, c: Blueprint)
    requires Extends(a, b) && Extends(b, c)
    ensures Extends(a, c)
  {
    forall k | 0 <= k < |c.pending|
      ensures c.pending[k] in a.pending || c.pending[k].pendingId > a.lastPendingId
    {
      if c.pending[k] in b.pending {
        var j :| 0 <= j < |b.pending| && b.pending[j] == c.pending[k];
      }
    }
  }

  lemma EditExtends(b: Blueprint, op: Op, clock: string)
    requires !op.Create? && Edit(b, op, clock).Ok?
    ensures Extends(b, Edit(b, op, clock).value)
  {
    hide NextStamp, MaxNumber, RevisionOf, CleanName, TrimNote;
    var c := Edit(b, op, clock).value;
    assert forall k :: 0 <= k < |b.pending| ==> b.pending[k] in b.pending;
  }

  // ---------------------------------------------------------------- what a reader of the current revision sees

  function CurrentOf(b: Blueprint): Option<Revision> { RevisionOf(b, b.currentRevision) }

  /** What each write makes current: an added revision if it says so, an accepted one always, the one an
    * update names; a push and a rejection change nothing that is current. There always is one. */
  lemma CurrentMoves(b: Blueprint, op: Op, clock: string)
    requires !op.Create? && RequestOk(op) && BlueprintOk(b) && Edit(b, op, clock).Ok?
    ensures var after := Edit(b, op, clock).value;
            && CurrentOf(after).Some?
            && match op
               case AddRevision(_, _, note, true, content) =>
                 CurrentOf(after).value.content == content && CurrentOf(after).value.note == TrimNote(note)
               case Accept(_, pendingId, _) =>
                 exists p :: p in b.pending && p.pendingId == pendingId
                             && CurrentOf(after).value.content == p.content && CurrentOf(after).value.note == p.note
               case Update(_, _, _, Some(number), _) => CurrentOf(after) == RevisionOf(b, number)
               case _ => CurrentOf(after) == CurrentOf(b)
  {
    hide QueueOk, PathSafe, CleanName, ContentOk, NextStamp, TrimNote, NoteOk, FindRevision;
    EditKeeps(b, op, clock);
    var after := Edit(b, op, clock).value;
    MaxIsCount(b.revisions);
    hide MaxNumber;
    if op.Update? && op.current.Some? {
      FindByPlace(b.revisions, 1, op.current.value);
    }
    FindByPlace(b.revisions, 1, b.currentRevision);
    FindByPlace(after.revisions, 1, after.currentRevision);
  }

  /** A write touches only its own parts: the history, the queue, or the marks. */
  lemma WriteTouchesItsOwn(b: Blueprint, op: Op, clock: string)
    requires !op.Create? && Edit(b, op, clock).Ok?
    ensures var after := Edit(b, op, clock).value;
            && (after.revisions != b.revisions ==> op.AddRevision? || op.Accept?)
            && (after.pending != b.pending ==> op.Push? || op.Accept? || op.Reject?)
            && (after.rejected != b.rejected ==> op.Reject?)
            && (after.lastPendingId != b.lastPendingId ==> op.Push?)
            && (after.name != b.name ==> op.Update? && op.newName.Some?)
            && (after.inUse != b.inUse ==> op.Update? && op.inUse == Some(after.inUse))
            && after.source == b.source && after.id == b.id
  {
    hide NextStamp, MaxNumber, RevisionOf, TrimNote, Position;
  }

  // ---------------------------------------------------------------- what was asked is what is done

  /** A note is kept without the spaces around it, and not at all when there is nothing else. */
  predicate NoteAsked(asked: Option<string>, kept: Option<string>) {
    if asked.None? || AllSpace(asked.value) then kept.None? else kept == Some(Trim(asked.value))
  }

  lemma TrimNoteIsAsked(note: Option<string>)
    ensures NoteAsked(note, TrimNote(note))
  {
    if note.Some? {
      var front, back := TrimDropsOuterSpace(note.value);
    }
    hide Trim, AllSpace;
  }

  /** Only the entry with this id has gone from the queue; the others stay in their order. */
  predicate QueueWithout(before: seq<Pending>, after: seq<Pending>, pendingId: nat, gone: Pending) {
    exists at :: 0 <= at < |before| && before[at] == gone && gone.pendingId == pendingId
                 && after == before[..at] + before[at + 1..]
  }

  /** The history with one revision more: the next number, the new stamp, and this note and content. */
  predicate OneMore(b: Blueprint, after: Blueprint, note: Option<string>, content: Revised) {
    && |after.revisions| == |b.revisions| + 1 && b.revisions <= after.revisions
    && var last := after.revisions[|b.revisions|];
       last.number == |b.revisions| + 1 && last.createdAt == after.takenAt && last.note == note && last.content == content
  }

  /** What each write leaves behind, part by part, and what it leaves alone. */
  ghost predicate Does(b: Blueprint, op: Op, after: Blueprint)
    requires !op.Create?
  {
    && after.id == b.id && after.source == b.source
    && match op
       case AddRevision(_, _, note, makeCurrent, content) =>
         && OneMore(b, after, TrimNote(note), content) && NoteAsked(note, TrimNote(note))
         && after.currentRevision == (if makeCurrent then |b.revisions| + 1 else b.currentRevision)
         && after.name == b.name && after.inUse == b.inUse
         && after.pending == b.pending && after.rejected == b.rejected && after.lastPendingId == b.lastPendingId
       case Push(_, origin, note, bundle, content) =>
         && |after.pending| == |b.pending| + 1 && b.pending <= after.pending && after.lastPendingId == b.lastPendingId + 1
         && (var entry := after.pending[|b.pending|];
             && entry.pendingId == after.lastPendingId && entry.receivedAt == after.takenAt
             && NoteAsked(origin, entry.origin) && NoteAsked(note, entry.note)
             && entry.bundle == bundle && entry.content == content)
         && after.revisions == b.revisions && after.currentRevision == b.currentRevision
         && after.name == b.name && after.inUse == b.inUse && after.rejected == b.rejected
       case Accept(_, pendingId, _) =>
         && (exists gone :: QueueWithout(b.pending, after.pending, pendingId, gone) && OneMore(b, after, gone.note, gone.content))
         && after.currentRevision == |b.revisions| + 1
         && after.name == b.name && after.inUse == b.inUse
         && after.rejected == b.rejected && after.lastPendingId == b.lastPendingId
       case Reject(_, pendingId, _) =>
         && (exists gone :: QueueWithout(b.pending, after.pending, pendingId, gone)
                            && after.rejected == b.rejected + [Rejected(after.takenAt, gone.(bundle := None))])
         && after.revisions == b.revisions && after.currentRevision == b.currentRevision
         && after.name == b.name && after.inUse == b.inUse && after.lastPendingId == b.lastPendingId
       case Update(_, _, newName, current, inUse) =>
         && after.name == (if newName.Some? then Trim(newName.value) else b.name)
         && after.inUse == (if inUse.Some? then inUse.value else b.inUse)
         && after.currentRevision == (if current.Some? then current.value else b.currentRevision)
         && after.revisions == b.revisions
         && after.pending == b.pending && after.rejected == b.rejected && after.lastPendingId == b.lastPendingId
  }

  /** Every write that succeeds does what was asked, and all of it: a rename renames, a mark marks, a push waits
    * with what it carried, and an accepted push becomes the next revision with its content and note. */
  lemma EditDoesWhatIsAsked(b: Blueprint, op: Op, clock: string)
    requires !op.Create? && RequestOk(op) && BlueprintOk(b) && Edit(b, op, clock).Ok?
    ensures Does(b, op, Edit(b, op, clock).value)
  {
    hide QueueOk, PathSafe, ContentOk, NextStamp, Before, Trim, NoteOk, TrimNote, NoteAsked, FindRevision;
    MaxIsCount(b.revisions);
    hide MaxNumber;
    var after := Edit(b, op, clock).value;
    match op {
      case AddRevision(_, _, note, _, _) => TrimNoteIsAsked(note);
      case Push(_, origin, note, _, _) =>
        TrimNoteIsAsked(origin);
        TrimNoteIsAsked(note);
      case Accept(_, pendingId, _) =>
        var at := Position(b.pending, pendingId).value;
        assert QueueWithout(b.pending, after.pending, pendingId, b.pending[at]);
      case Reject(_, pendingId, _) =>
        var at := Position(b.pending, pendingId).value;
        assert QueueWithout(b.pending, after.pending, pendingId, b.pending[at]);
      case Update(_, _, _, _, _) =>
    }
  }

  /** It is stamped with what the clock says when that is later than the stamp it replaces, and with that stamp
    * and a tilde otherwise. */
  lemma EditStamps(b: Blueprint, op: Op, clock: string)
    requires !op.Create? && Edit(b, op, clock).Ok?
    ensures var stamp := Edit(b, op, clock).value.takenAt;
            stamp in [clock, b.takenAt + "~"] && (stamp == clock <==> Before(b.takenAt, clock))
  {
    NextStampGrows(b.takenAt, clock);
    hide NextStamp, Before, MaxNumber, Position, CleanName, TrimNote, RevisionOf;
  }

  /** And it succeeds exactly when its base is current, there is room, and what it names is there. */
  lemma EditSucceedsWhen(b: Blueprint, op: Op, clock: string)
    requires !op.Create? && BlueprintOk(b)
    ensures Edit(b, op, clock).Ok? <==>
            match op
            case AddRevision(_, base, _, _, _) => base == b.takenAt && |b.revisions| < MAX_REVISIONS
            case Push(_, _, _, _, _) => |b.pending| < MAX_PENDING
            case Accept(_, pendingId, base) =>
              base == b.takenAt && |b.revisions| < MAX_REVISIONS
              && exists k :: 0 <= k < |b.pending| && b.pending[k].pendingId == pendingId
            case Reject(_, pendingId, base) =>
              base == b.takenAt && exists k :: 0 <= k < |b.pending| && b.pending[k].pendingId == pendingId
            case Update(_, base, _, current, _) =>
              base == b.takenAt && (current.Some? ==> 1 <= current.value <= |b.revisions|)
  {
    hide QueueOk, PathSafe, ContentOk, NextStamp, CleanName, TrimNote, FindRevision, MaxNumber, Position;
    if op.Update? && op.current.Some? {
      FindByPlace(b.revisions, 1, op.current.value);
    }
  }

  /** The kind of a refusal tells its cause: a well-formed request whose blueprint is missing, one whose base has
    * been passed, or one that only the disk refused. */
  lemma RefusalTellsWhy(docs: Docs, op: Op, env: Env)
    ensures Answer(docs, op, env) == Err(NotFound) <==>
              !op.Create? && RequestOk(op) && PathSafe(op.id) && PathSafe(env.project) && op.id !in docs
    ensures Answer(docs, op, env) == Err(Conflict) <==>
              HasBase(op) && RequestOk(op) && PathSafe(op.id) && PathSafe(env.project) && op.id in docs && docs[op.id].takenAt != op.base
    ensures Answer(docs, op, env) == Err(Internal) <==> !env.saved && Answer(docs, op, env.(saved := true)).Ok?
  {
    hide ContentOk, PathSafe, NextStamp, CleanName, TrimNote, NoteOk, RequestOk, FindRevision, MaxNumber, Position, Append;
  }

  /** A new blueprint is what was asked for: under its name, from its source, in use, with nothing waiting and one
    * current revision that holds the content and note given. */
  lemma CreateDoesWhatIsAsked(op: Op, id: string, clock: string)
    requires op.Create? && RequestOk(op)
    ensures var b := FirstRevision(id, CleanName(op.name).value, op.source, TrimNote(op.note), op.content, clock);
            && b.id == id && b.name == Trim(op.name) && b.source == op.source && b.inUse && b.takenAt == clock
            && b.pending == [] && b.rejected == [] && b.lastPendingId == 0
            && |b.revisions| == 1 && CurrentOf(b) == Some(b.revisions[0])
            && b.revisions[0].content == op.content && NoteAsked(op.note, b.revisions[0].note)
            && b.revisions[0].number == 1 && b.revisions[0].createdAt == clock
  {
    hide ContentOk, Trim, NoteAsked, TrimNote;
    TrimNoteIsAsked(op.note);
  }
}
