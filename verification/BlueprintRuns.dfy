/** Whole runs of the blueprint store. Writes are serialised by the lock, so a run is a list of states
  * with one request between each and the next; a client's read is any earlier state, however old, and
  * the clock of each request is arbitrary. A ledger beside the store records what each push carried and
  * what became of it; the store itself never reads it.
  */
module BlueprintRuns {

  import opened Wrappers
  import opened Text
  import opened Content
  import opened Blueprints
  import opened Geometry
  import Ids

  /** One request of a run, or a turn that belongs to another store. */
  datatype Turn = Idle | Request(op: Op, env: Env)

  ghost function Next(docs: Docs, turn: Turn): Docs {
    match turn
    case Idle => docs
    case Request(op, env) => Step(docs, op, env)
  }

  /** A new blueprint's id is free when it is made: `new_id` tries until it is, under the lock. */
  ghost predicate Enabled(docs: Docs, turn: Turn) {
    turn.Request? && turn.op.Create? ==> PathSafe(turn.env.freshId) && turn.env.freshId !in docs
  }

  ghost predicate Run(states: seq<Docs>, turns: seq<Turn>) {
    && |states| == |turns| + 1
    && states[0] == map[]
    && forall k :: 0 <= k < |turns| ==> Enabled(states[k], turns[k]) && states[k + 1] == Next(states[k], turns[k])
  }

  ghost predicate StoreOk(docs: Docs) {
    forall id :: id in docs ==> docs[id].id == id && BlueprintOk(docs[id])
  }

  // ---------------------------------------------------------------- one turn

  /** One blueprint across one turn: it stays exactly as it was, or one request edited it. */
  lemma TurnEditsOne(docs: Docs, turn: Turn, id: string)
    requires StoreOk(docs) && Enabled(docs, turn)
    ensures id in docs ==> id in Next(docs, turn)
    ensures id in docs && Next(docs, turn)[id] != docs[id] ==>
            && turn.Request? && !turn.op.Create? && turn.op.id == id && RequestOk(turn.op)
            && Edit(docs[id], turn.op, turn.env.clock) == Ok(Next(docs, turn)[id])
  {
    hide BlueprintOk, RequestOk, FirstRevision, PathSafe, CleanName;
    if turn.Request? && !turn.op.Create? && turn.op.id in docs {
      EditKeepsId(docs[turn.op.id], turn.op, turn.env.clock);
    }
    hide Edit;
    if turn.Request? && turn.op.Create? && RequestOk(turn.op) {
      RequestNameOk(turn.op);
      FirstRevisionId(turn.op, turn.env);
    }
  }

  lemma EditKeepsId(b: Blueprint, op: Op, clock: string)
    requires !op.Create?
    ensures Edit(b, op, clock).Ok? ==> Edit(b, op, clock).value.id == b.id
  {
    hide NextStamp, MaxNumber, Position, CleanName;
  }

  lemma FirstRevisionId(op: Op, env: Env)
    requires op.Create? && CleanName(op.name).Ok?
    ensures FirstRevision(env.freshId, CleanName(op.name).value, op.source, TrimNote(op.note), op.content, env.clock).id == env.freshId
  {
  }

  lemma TurnKeepsStore(docs: Docs, turn: Turn)
    requires StoreOk(docs) && Enabled(docs, turn)
    ensures StoreOk(Next(docs, turn))
  {
    hide BlueprintOk, RequestOk, FirstRevision, PathSafe, CleanName, Edit, TrimNote;
    if turn.Request? {
      var op, env := turn.op, turn.env;
      if op.Create? {
        if RequestOk(op) {
          RequestNameOk(op);
          FirstRevisionOk(op, env.freshId, env.clock);
          FirstRevisionId(op, env);
        }
      } else if op.id in docs {
        if RequestOk(op) && Edit(docs[op.id], op, env.clock).Ok? {
          EditKeeps(docs[op.id], op, env.clock);
        }
      }
    }
  }

  lemma RequestNameOk(op: Op)
    requires op.Create? && RequestOk(op)
    ensures CleanName(op.name).Ok?
  {
  }

  // ---------------------------------------------------------------- any distance along a run

  lemma {:induction false} RunKeepsStore(states: seq<Docs>, turns: seq<Turn>, k: nat)
    requires Run(states, turns) && k < |states|
    ensures StoreOk(states[k])
  {
    if k > 0 {
      RunKeepsStore(states, turns, k - 1);
      hide Next, Enabled, BlueprintOk;
      TurnKeepsStore(states[k - 1], turns[k - 1]);
    }
  }

  /** Versions never go back, and two states of a blueprint with one version are one state. */
  ghost predicate Grew(earlier: Blueprint, later: Blueprint) {
    && Extends(earlier, later)
    && NotAfter(earlier.takenAt, later.takenAt)
    && (earlier.takenAt == later.takenAt ==> earlier == later)
  }

  lemma GrewIsTransitive(a: Blueprint, b: Blueprint, c: Blueprint)
    requires Grew(a, b) && Grew(b, c)
    ensures Grew(a, c)
  {
    NotAfterIsTransitive(a.takenAt, b.takenAt, c.takenAt);
    ExtendsIsTransitive(a, b, c);
    BeforeIsStrict(a.takenAt, b.takenAt);
    BeforeIsStrict(b.takenAt, c.takenAt);
    hide Extends, Before;
  }

  lemma TurnGrows(docs: Docs, turn: Turn, id: string)
    requires StoreOk(docs) && Enabled(docs, turn)
    ensures id in docs ==> id in Next(docs, turn) && Grew(docs[id], Next(docs, turn)[id])
    ensures id in docs && Next(docs, turn)[id] != docs[id] ==> Before(docs[id].takenAt, Next(docs, turn)[id].takenAt)
  {
    hide BlueprintOk, RequestOk, Edit, Next, Enabled;
    TurnEditsOne(docs, turn, id);
    if id !in docs {
      return;
    }
    if Next(docs, turn)[id] != docs[id] {
      EditKeeps(docs[id], turn.op, turn.env.clock);
      EditExtends(docs[id], turn.op, turn.env.clock);
      BeforeIsStrict(docs[id].takenAt, Next(docs, turn)[id].takenAt);
    }
    hide Before;
    ExtendsItself(docs[id]);
    hide Extends;
  }

  lemma ExtendsItself(b: Blueprint)
    ensures Extends(b, b)
  {
  }

  /** No lost update and no ABA, in any run on any clock: along a run a blueprint only grows, and its
    * version stamp names one state of it. */
  lemma {:induction false} HistoryGrows(states: seq<Docs>, turns: seq<Turn>, id: string, i: nat, j: nat)
    requires Run(states, turns) && i <= j < |states| && id in states[i]
    ensures id in states[j] && Grew(states[i][id], states[j][id])
    decreases j
  {
    if i == j {
      ExtendsItself(states[i][id]);
    } else {
      hide Next, Enabled, Grew, BlueprintOk;
      HistoryGrows(states, turns, id, i, j - 1);
      RunKeepsStore(states, turns, j - 1);
      TurnGrows(states[j - 1], turns[j - 1], id);
      GrewIsTransitive(states[i][id], states[j - 1][id], states[j][id]);
    }
  }

  /** A request that is refused, or that the disk fails, changes nothing at all. */
  lemma RefusedChangesNothing(docs: Docs, op: Op, env: Env)
    requires Answer(docs, op, env).Err?
    ensures Step(docs, op, env) == docs
  {
    hide Outcome;
  }

  function StrikeOut<T>(s: seq<T>, k: nat): seq<T>
    requires k < |s|
  {
    s[..k] + s[k + 1..]
  }

  /** So a refused request can be struck out of a run: what is left is a run to the same last state, and every
    * request before and after it meets the state it met. */
  lemma RefusalLeavesNoTrace(states: seq<Docs>, turns: seq<Turn>, k: nat)
    requires Run(states, turns) && k < |turns|
    requires turns[k].Request? && Answer(states[k], turns[k].op, turns[k].env).Err?
    ensures Run(StrikeOut(states, k), StrikeOut(turns, k))
    ensures StrikeOut(states, k)[|turns| - 1] == states[|turns|]
    ensures forall j :: 0 <= j < |turns| && j != k ==> StrikeOut(states, k)[if j < k then j else j - 1] == states[j]
  {
    hide Step, Answer, Enabled;
    RefusedChangesNothing(states[k], turns[k].op, turns[k].env);
    assert states[k + 1] == Next(states[k], turns[k]) == states[k];
    hide Next;
    var fewer, left := StrikeOut(states, k), StrikeOut(turns, k);
    forall j | 0 <= j < |left|
      ensures Enabled(fewer[j], left[j]) && fewer[j + 1] == Next(fewer[j], left[j])
    {
      var i := if j < k then j else j + 1;
      assert left[j] == turns[i] && fewer[j] == states[i] && fewer[j + 1] == states[i + 1];
      assert Enabled(states[i], turns[i]) && states[i + 1] == Next(states[i], turns[i]);
    }
  }

  /** A based write that succeeds names the version it finds. */
  lemma BaseIsCurrent(docs: Docs, op: Op, env: Env)
    requires HasBase(op) && Answer(docs, op, env).Ok?
    ensures op.id in docs && docs[op.id].takenAt == op.base
  {
    hide RequestOk, PathSafe, NextStamp, MaxNumber, Position, CleanName, RevisionOf;
  }

  /** A write that names a base acts on exactly the state its caller read: if the base was read in any
    * earlier state of the run, however stale, and the write succeeds, the blueprint is that state still. */
  lemma BasedWriteActsOnWhatWasRead(states: seq<Docs>, turns: seq<Turn>, read: nat, at: nat)
    requires Run(states, turns) && read <= at < |turns|
    requires turns[at].Request? && HasBase(turns[at].op)
    requires Answer(states[at], turns[at].op, turns[at].env).Ok?
    requires turns[at].op.id in states[read] && states[read][turns[at].op.id].takenAt == turns[at].op.base
    ensures states[at][turns[at].op.id] == states[read][turns[at].op.id]
  {
    BaseIsCurrent(states[at], turns[at].op, turns[at].env);
    HistoryGrows(states, turns, turns[at].op.id, read, at);
    hide Answer, Run, Extends;
  }

  /** A stale base is the only conflict, and always one. */
  lemma ConflictIsStaleBase(b: Blueprint, op: Op, clock: string)
    requires HasBase(op)
    ensures Edit(b, op, clock) == Err(Conflict) <==> b.takenAt != op.base
  {
    hide NextStamp, MaxNumber, Position, CleanName, RevisionOf, TrimNote;
  }

  /** A well-formed based write conflicts if and only if the blueprint is no longer what its caller read. */
  lemma ConflictMeansChanged(states: seq<Docs>, turns: seq<Turn>, read: nat, at: nat)
    requires Run(states, turns) && read <= at < |turns|
    requires turns[at].Request? && HasBase(turns[at].op) && RequestOk(turns[at].op)
    requires PathSafe(turns[at].op.id) && PathSafe(turns[at].env.project)
    requires turns[at].op.id in states[read] && states[read][turns[at].op.id].takenAt == turns[at].op.base
    ensures turns[at].op.id in states[at]
    ensures Answer(states[at], turns[at].op, turns[at].env) == Err(Conflict)
       <==> states[at][turns[at].op.id] != states[read][turns[at].op.id]
  {
    hide Edit, RequestOk, PathSafe, Extends, Before, Next, Enabled;
    HistoryGrows(states, turns, turns[at].op.id, read, at);
    ConflictIsStaleBase(states[at][turns[at].op.id], turns[at].op, turns[at].env.clock);
  }

  /** A based write that succeeds leaves a later version behind. */
  lemma BaseIsPassed(docs: Docs, op: Op, env: Env)
    requires StoreOk(docs) && HasBase(op)
    ensures Answer(docs, op, env).Ok? ==> op.id in Step(docs, op, env) && Before(op.base, Step(docs, op, env)[op.id].takenAt)
  {
    hide BlueprintOk, RequestOk, PathSafe, Before, Edit;
    if Answer(docs, op, env).Ok? {
      BaseIsCurrent(docs, op, env);
      var b := docs[op.id];
      assert Answer(docs, op, env) == Edit(b, op, env.clock) && RequestOk(op);
      EditKeeps(b, op, env.clock);
    }
  }

  /** So of two writes made from one read, at most one succeeds. */
  lemma OneWinner(states: seq<Docs>, turns: seq<Turn>, first: nat, second: nat)
    requires Run(states, turns) && first < second < |turns|
    requires turns[first].Request? && HasBase(turns[first].op) && turns[second].Request? && HasBase(turns[second].op)
    requires turns[first].op.id == turns[second].op.id && turns[first].op.base == turns[second].op.base
    requires Answer(states[first], turns[first].op, turns[first].env).Ok?
    ensures Answer(states[second], turns[second].op, turns[second].env).Err?
  {
    var id, base := turns[first].op.id, turns[first].op.base;
    hide StoreOk, Answer, Step, Extends;
    RunKeepsStore(states, turns, first);
    BaseIsPassed(states[first], turns[first].op, turns[first].env);
    HistoryGrows(states, turns, id, first + 1, second);
    if Answer(states[second], turns[second].op, turns[second].env).Ok? {
      BaseIsCurrent(states[second], turns[second].op, turns[second].env);
      PassedIsNotCurrent(base, states[first + 1][id].takenAt, states[second][id].takenAt);
    }
  }

  lemma PassedIsNotCurrent(base: string, passed: string, now: string)
    requires Before(base, passed) && NotAfter(passed, now)
    ensures now != base
  {
    BeforeIsStrict(base, passed);
  }

  // ---------------------------------------------------------------- runs cut off by crashes

  /** The request on a disk that takes its write. */
  function Taken(turn: Turn): Turn {
    match turn
    case Idle => Idle
    case Request(op, env) => Request(op, env.(saved := true))
  }

  /** A run in which any request may be cut off anywhere: a restart finds the documents as they were, or as the
    * request makes them. */
  ghost predicate CutRun(states: seq<Docs>, asked: seq<Turn>) {
    && |states| == |asked| + 1
    && states[0] == map[]
    && forall k :: 0 <= k < |asked| ==>
         && Enabled(states[k], asked[k])
         && (states[k + 1] == states[k] || states[k + 1] == Next(states[k], Taken(asked[k])))
  }

  /** The turns that a cut-off run has really taken. */
  function Settled(states: seq<Docs>, asked: seq<Turn>): (turns: seq<Turn>)
    requires |states| == |asked| + 1
    ensures |turns| == |asked|
  {
    seq(|asked|, k requires 0 <= k < |asked| => if states[k + 1] == states[k] then Idle else Taken(asked[k]))
  }

  /** A run cut off and restarted any number of times is a run, so everything said here of runs holds of it. */
  lemma CutRunIsRun(states: seq<Docs>, asked: seq<Turn>)
    requires CutRun(states, asked)
    ensures Run(states, Settled(states, asked))
  {
    hide Step, PathSafe;
    var turns := Settled(states, asked);
    forall k | 0 <= k < |turns|
      ensures Enabled(states[k], turns[k]) && states[k + 1] == Next(states[k], turns[k])
    {
      assert Enabled(states[k], asked[k]);
    }
  }

  // ---------------------------------------------------------------- conservation of pushes

  /** What a push carried, as it is kept. */
  datatype Pushed = Pushed(origin: Option<string>, note: Option<string>, bundle: Option<string>, content: Revised)

  /** Every push to one blueprint by the id it was given, and the revision each accepted one became. */
  datatype Ledger = Ledger(pushed: map<nat, Pushed>, accepted: map<nat, nat>)

  /** What a successful write adds to the ledger, from the request alone. */
  function Record(ledger: Ledger, before: Blueprint, op: Op): Ledger {
    match op
    case Push(_, origin, note, bundle, content) =>
      ledger.(pushed := ledger.pushed[before.lastPendingId + 1 := Pushed(TrimNote(origin), TrimNote(note), bundle, content)])
    case Accept(_, pendingId, _) => ledger.(accepted := ledger.accepted[pendingId := |before.revisions| + 1])
    case _ => ledger
  }

  function WaitingIds(pending: seq<Pending>): set<nat> {
    set k | 0 <= k < |pending| :: pending[k].pendingId
  }

  function RejectedIds(rejected: seq<Rejected>): set<nat> {
    set k | 0 <= k < |rejected| :: rejected[k].revision.pendingId
  }

  ghost predicate AsPushed(p: Pending, pushed: Pushed) {
    p.origin == pushed.origin && p.note == pushed.note && p.bundle == pushed.bundle && p.content == pushed.content
  }

  /** What waits is what was pushed. */
  ghost predicate QueueMatches(pending: seq<Pending>, pushed: map<nat, Pushed>) {
    forall k :: 0 <= k < |pending| ==>
      pending[k].pendingId in pushed && AsPushed(pending[k], pushed[pending[k].pendingId])
  }

  /** What was rejected is what was pushed, without its bundle. */
  ghost predicate RejectedMatch(rejected: seq<Rejected>, pushed: map<nat, Pushed>) {
    forall k :: 0 <= k < |rejected| ==>
      var p := rejected[k].revision;
      p.pendingId in pushed && AsPushed(p, pushed[p.pendingId].(bundle := None))
  }

  /** What was accepted is a revision after the first, each its own, with the content and note pushed. */
  ghost predicate AcceptedMatch(accepted: map<nat, nat>, revisions: seq<Revision>, pushed: map<nat, Pushed>) {
    && (forall id :: id in accepted ==>
          && id in pushed && 2 <= accepted[id] <= |revisions|
          && revisions[accepted[id] - 1].content == pushed[id].content
          && revisions[accepted[id] - 1].note == pushed[id].note)
    && (forall id, other :: id in accepted && other in accepted && id != other ==> accepted[id] != accepted[other])
  }

  /** The ids handed out are 1 to the last; each is waiting, rejected or accepted, and only one of them. */
  ghost predicate Partitioned(waiting: set<nat>, rejected: set<nat>, accepted: set<nat>, pushed: set<nat>, last: nat) {
    && (forall id: nat :: id in pushed <==> 1 <= id <= last)
    && waiting + rejected + accepted == pushed
    && waiting !! rejected && waiting !! accepted && rejected !! accepted
  }

  /** Conservation of pushes: nothing pushed is lost, duplicated or altered. */
  ghost predicate Conserved(b: Blueprint, ledger: Ledger) {
    && Partitioned(WaitingIds(b.pending), RejectedIds(b.rejected), ledger.accepted.Keys, ledger.pushed.Keys, b.lastPendingId)
    && QueueMatches(b.pending, ledger.pushed)
    && RejectedMatch(b.rejected, ledger.pushed)
    && AcceptedMatch(ledger.accepted, b.revisions, ledger.pushed)
  }

  lemma FirstIsConserved(id: string, name: string, source: Option<SourceRoom>, note: Option<string>, content: Revised, clock: string)
    ensures Conserved(FirstRevision(id, name, source, note, content, clock), Ledger(map[], map[]))
  {
  }

  lemma IdsOfMore(pending: seq<Pending>, p: Pending)
    ensures WaitingIds(pending + [p]) == WaitingIds(pending) + {p.pendingId}
  {
    var more := pending + [p];
    forall id | id in WaitingIds(pending)
      ensures id in WaitingIds(more)
    {
      var k :| 0 <= k < |pending| && pending[k].pendingId == id;
      assert more[k].pendingId == id;
    }
    assert more[|pending|].pendingId == p.pendingId;
  }

  lemma IdsOfMoreRejected(rejected: seq<Rejected>, r: Rejected)
    ensures RejectedIds(rejected + [r]) == RejectedIds(rejected) + {r.revision.pendingId}
  {
    var more := rejected + [r];
    forall id | id in RejectedIds(rejected)
      ensures id in RejectedIds(more)
    {
      var k :| 0 <= k < |rejected| && rejected[k].revision.pendingId == id;
      assert more[k].revision.pendingId == id;
    }
    assert more[|rejected|].revision.pendingId == r.revision.pendingId;
  }

  /** The ids of a queue with one entry taken out. */
  lemma IdsOfRest(pending: seq<Pending>, at: nat)
    requires at < |pending|
    requires forall j, k :: 0 <= j < k < |pending| ==> pending[j].pendingId < pending[k].pendingId
    ensures WaitingIds(pending[..at] + pending[at + 1..]) == WaitingIds(pending) - {pending[at].pendingId}
  {
    var rest := pending[..at] + pending[at + 1..];
    forall k | 0 <= k < |pending| && k != at
      ensures pending[k].pendingId in WaitingIds(rest)
    {
      assert rest[if k < at then k else k - 1] == pending[k];
    }
    forall k | 0 <= k < |rest|
      ensures rest[k].pendingId in WaitingIds(pending) && rest[k].pendingId != pending[at].pendingId
    {
      assert rest[k] == pending[if k < at then k else k + 1];
    }
  }

  lemma RestMatches(pending: seq<Pending>, pushed: map<nat, Pushed>, at: nat)
    requires at < |pending| && QueueMatches(pending, pushed)
    ensures QueueMatches(pending[..at] + pending[at + 1..], pushed)
  {
    hide AsPushed;
  }

  lemma PushConserves(b: Blueprint, ledger: Ledger, p: Pending, pushed: Pushed)
    requires Conserved(b, ledger) && p.pendingId == b.lastPendingId + 1 && AsPushed(p, pushed)
    ensures Conserved(b.(lastPendingId := p.pendingId, pending := b.pending + [p]),
                      ledger.(pushed := ledger.pushed[p.pendingId := pushed]))
  {
    hide AsPushed, WaitingIds, RejectedIds;
    IdsOfMore(b.pending, p);
  }

  lemma AcceptConserves(b: Blueprint, ledger: Ledger, at: nat, r: Revision)
    requires Conserved(b, ledger) && QueueOk(b.pending, b.rejected, b.lastPendingId) && at < |b.pending| && b.revisions != []
    requires r.note == b.pending[at].note && r.content == b.pending[at].content
    ensures Conserved(b.(pending := b.pending[..at] + b.pending[at + 1..], revisions := b.revisions + [r]),
                      ledger.(accepted := ledger.accepted[b.pending[at].pendingId := |b.revisions| + 1]))
  {
    hide QueueMatches, RejectedMatch, AcceptedMatch, WaitingIds, RejectedIds, ContentOk;
    var id := b.pending[at].pendingId;
    IdsOfRest(b.pending, at);
    RestMatches(b.pending, ledger.pushed, at);
    EntryMatches(b.pending, ledger.pushed, at);
    IdWaits(b.pending, at);
    AcceptedGrows(ledger.accepted, b.revisions, ledger.pushed, id, r);
  }

  lemma IdWaits(pending: seq<Pending>, at: nat)
    requires at < |pending|
    ensures pending[at].pendingId in WaitingIds(pending)
  {
  }

  lemma AcceptedGrows(accepted: map<nat, nat>, revisions: seq<Revision>, pushed: map<nat, Pushed>, id: nat, r: Revision)
    requires AcceptedMatch(accepted, revisions, pushed) && id in pushed && revisions != []
    requires r.note == pushed[id].note && r.content == pushed[id].content
    ensures AcceptedMatch(accepted[id := |revisions| + 1], revisions + [r], pushed)
  {
  }

  lemma EntryMatches(pending: seq<Pending>, pushed: map<nat, Pushed>, at: nat)
    requires at < |pending| && QueueMatches(pending, pushed)
    ensures pending[at].pendingId in pushed && AsPushed(pending[at], pushed[pending[at].pendingId])
  {
  }

  lemma RejectConserves(b: Blueprint, ledger: Ledger, at: nat, stamp: string)
    requires Conserved(b, ledger) && QueueOk(b.pending, b.rejected, b.lastPendingId) && at < |b.pending|
    ensures Conserved(b.(pending := b.pending[..at] + b.pending[at + 1..],
                         rejected := b.rejected + [Rejected(stamp, b.pending[at].(bundle := None))]), ledger)
  {
    IdsOfRest(b.pending, at);
    RestMatches(b.pending, ledger.pushed, at);
    EntryMatches(b.pending, ledger.pushed, at);
    IdsOfMoreRejected(b.rejected, Rejected(stamp, b.pending[at].(bundle := None)));
    assert b.pending[at].pendingId in WaitingIds(b.pending);
    hide QueueMatches, AcceptedMatch, WaitingIds, RejectedIds, QueueOk;
  }

  /** Conservation looks at the queue, the rejected, the history and the counter, and at nothing else. */
  lemma ConservedBySameParts(b: Blueprint, c: Blueprint, ledger: Ledger)
    requires Conserved(b, ledger)
    requires c.pending == b.pending && c.rejected == b.rejected && c.lastPendingId == b.lastPendingId && b.revisions <= c.revisions
    ensures Conserved(c, ledger)
  {
    hide Partitioned, QueueMatches, RejectedMatch;
  }

  /** Every write conserves pushes. */
  lemma EditConserves(b: Blueprint, op: Op, clock: string, ledger: Ledger)
    requires !op.Create? && BlueprintOk(b) && Conserved(b, ledger)
    ensures Edit(b, op, clock).Ok? ==> Conserved(Edit(b, op, clock).value, Record(ledger, b, op))
  {
    hide Conserved, Numbered, QueueOk, PathSafe, CleanName, NextStamp, TrimNote, MaxNumber;
    if Edit(b, op, clock).Err? {
      return;
    }
    var c := Edit(b, op, clock).value;
    match op
    case Push(_, origin, note, bundle, content) =>
      var p := c.pending[|b.pending|];
      PushConserves(b, ledger, p, Pushed(TrimNote(origin), TrimNote(note), bundle, content));
      ConservedBySameParts(b.(lastPendingId := p.pendingId, pending := b.pending + [p]), c, Record(ledger, b, op));
    case Accept(_, pendingId, _) =>
      var at, r := Position(b.pending, pendingId).value, c.revisions[|b.revisions|];
      AcceptConserves(b, ledger, at, r);
      ConservedBySameParts(b.(pending := b.pending[..at] + b.pending[at + 1..], revisions := b.revisions + [r]), c,
                           Record(ledger, b, op));
    case Reject(_, pendingId, _) =>
      var at, stamp := Position(b.pending, pendingId).value, c.takenAt;
      RejectConserves(b, ledger, at, stamp);
      ConservedBySameParts(b.(pending := b.pending[..at] + b.pending[at + 1..],
                              rejected := b.rejected + [Rejected(stamp, b.pending[at].(bundle := None))]), c, ledger);
    case _ => ConservedBySameParts(b, c, ledger);
  }

  /** The ledger of blueprint `id` after k turns of a run. */
  ghost function LedgerAt(states: seq<Docs>, turns: seq<Turn>, id: string, k: nat): Ledger
    requires |states| == |turns| + 1 && k < |states|
  {
    if k == 0 || id !in states[k - 1] then Ledger(map[], map[])
    else
      var before := LedgerAt(states, turns, id, k - 1);
      if id !in states[k] || states[k][id] == states[k - 1][id] || turns[k - 1].Idle? then before
      else Record(before, states[k - 1][id], turns[k - 1].op)
  }

  /** In every run, in every state, every push made to every blueprint is accounted for. */
  lemma {:induction false} PushesAreConserved(states: seq<Docs>, turns: seq<Turn>, id: string, k: nat)
    requires Run(states, turns) && k < |states| && id in states[k]
    ensures Conserved(states[k][id], LedgerAt(states, turns, id, k))
  {
    hide Conserved, BlueprintOk, Edit, Enabled, RequestOk;
    if k > 0 {
      var docs, turn := states[k - 1], turns[k - 1];
      RunKeepsStore(states, turns, k - 1);
      if id in docs {
        PushesAreConserved(states, turns, id, k - 1);
        TurnEditsOne(docs, turn, id);
        if states[k][id] != docs[id] {
          EditConserves(docs[id], turn.op, turn.env.clock, LedgerAt(states, turns, id, k - 1));
        }
      } else {
        NewIsFirst(docs, turn, id);
      }
    }
  }

  lemma NewIsFirst(docs: Docs, turn: Turn, id: string)
    requires Enabled(docs, turn) && StoreOk(docs) && id !in docs && id in Next(docs, turn)
    ensures Conserved(Next(docs, turn)[id], Ledger(map[], map[]))
  {
    hide Conserved, BlueprintOk, PathSafe, CleanName, TrimNote, ContentOk, NextStamp, MaxNumber, RevisionOf;
    var op, env := turn.op, turn.env;
    if op.Create? {
      FirstIsConserved(env.freshId, CleanName(op.name).value, op.source, TrimNote(op.note), op.content, env.clock);
    } else {
      EditKeepsId(docs[op.id], op, env.clock);
    }
  }

  // ---------------------------------------------------------------- accepting with a bundle

  /** What the accept handler reads, without a lock, before it accepts: the bundle that waits with the
    * revision, or nothing. */
  function WaitingBundle(b: Blueprint, pendingId: nat): Option<string> {
    var at := Position(b.pending, pendingId);
    if at.Some? then b.pending[at.value].bundle else None
  }

  lemma AcceptedWaits(docs: Docs, op: Op, env: Env)
    requires op.Accept? && Answer(docs, op, env).Ok?
    ensures op.id in docs && Position(docs[op.id].pending, op.pendingId).Some?
  {
    hide PathSafe, NextStamp, MaxNumber;
  }

  /** The bundle the handler read is the one pushed with the accepted revision iff the push came before
    * the read or carried no bundle. */
  lemma BundleReadIsPushed(states: seq<Docs>, turns: seq<Turn>, read: nat, at: nat)
    requires Run(states, turns) && read <= at < |turns|
    requires turns[at].Request? && turns[at].op.Accept? && turns[at].op.id in states[read]
    requires Answer(states[at], turns[at].op, turns[at].env).Ok?
    ensures var op := turns[at].op;
            var pushed := LedgerAt(states, turns, op.id, at).pushed;
            && op.pendingId in pushed
            && (WaitingBundle(states[read][op.id], op.pendingId) == pushed[op.pendingId].bundle
                <==> op.pendingId <= states[read][op.id].lastPendingId || pushed[op.pendingId].bundle.None?)
  {
    var op := turns[at].op;
    hide Answer, Next, Enabled, NotAfter, PathSafe, CleanName, Numbered, AcceptedMatch, RejectedMatch, Partitioned;
    AcceptedWaits(states[at], op, turns[at].env);
    HistoryGrows(states, turns, op.id, read, at);
    PushesAreConserved(states, turns, op.id, at);
    RunKeepsStore(states, turns, read);
    hide Run;
    SameEntry(states[read][op.id], states[at][op.id], op.pendingId);
    var k := Position(states[at][op.id].pending, op.pendingId).value;
    EntryMatches(states[at][op.id].pending, LedgerAt(states, turns, op.id, at).pushed, k);
  }

  /** An entry that waits in a later state waited in the earlier one, unchanged, if its id had been
    * handed out by then; otherwise nothing with that id waited. */
  lemma SameEntry(earlier: Blueprint, later: Blueprint, pendingId: nat)
    requires BlueprintOk(earlier) && Extends(earlier, later) && Position(later.pending, pendingId).Some?
    ensures WaitingBundle(earlier, pendingId)
         == if pendingId <= earlier.lastPendingId then WaitingBundle(later, pendingId) else None
  {
    hide PathSafe, CleanName, Numbered, ContentOk;
    var entry := later.pending[Position(later.pending, pendingId).value];
    var at := Position(earlier.pending, pendingId);
    if pendingId <= earlier.lastPendingId {
      var k :| 0 <= k < |earlier.pending| && earlier.pending[k] == entry;
      assert at.Some? && at.value == k;
    }
  }

  /** When the base of an accept was read no later than the waiting bundle was, success means nothing
    * moved between the two reads and the write: the bundle read is the one pushed with that id. */
  lemma AcceptAppliesRightBundle(states: seq<Docs>, turns: seq<Turn>, based: nat, read: nat, at: nat)
    requires Run(states, turns) && based <= read <= at < |turns|
    requires turns[at].Request? && turns[at].op.Accept?
    requires turns[at].op.id in states[based] && states[based][turns[at].op.id].takenAt == turns[at].op.base
    requires Answer(states[at], turns[at].op, turns[at].env).Ok?
    ensures var op := turns[at].op;
            var pushed := LedgerAt(states, turns, op.id, at).pushed;
            && op.id in states[read] && states[read][op.id] == states[at][op.id]
            && op.pendingId in pushed
            && WaitingBundle(states[read][op.id], op.pendingId) == pushed[op.pendingId].bundle
  {
    var op := turns[at].op;
    hide Answer, Next, Enabled, BlueprintOk, Extends, Before;
    BaseIsCurrent(states[at], op, turns[at].env);
    HistoryGrows(states, turns, op.id, based, read);
    HistoryGrows(states, turns, op.id, read, at);
    BeforeIsStrict(states[based][op.id].takenAt, states[read][op.id].takenAt);
    PushesAreConserved(states, turns, op.id, at);
    AcceptedWaits(states[at], op, turns[at].env);
    hide Run;
    var k := Position(states[at][op.id].pending, op.pendingId).value;
    EntryMatches(states[at][op.id].pending, LedgerAt(states, turns, op.id, at).pushed, k);
  }

  // ---------------------------------------------------------------- a read that comes too early

  const TRIANGLE := Revised([Point(0.0, 0.0), Point(1.0, 0.0), Point(0.0, 1.0)], [], [], [])

  lemma TriangleIsContent()
    ensures ContentOk(TRIANGLE)
  {
    assert Follows(TRIANGLE.items) == map[];
  }

  lemma BedIsName()
    ensures CleanName("Bed") == Ok("Bed")
    ensures NoteOk(None)
  {
    assert TrimStart("Bed") == "Bed" && TrimEnd("Bed") == "Bed";
  }

  /** Create, push with a bundle, accept under a base that no read has given. */
  function EarlyTurns(id: string): seq<Turn> {
    var env := Env(id, "", id, true);
    [Request(Op.Create("Bed", None, None, TRIANGLE), env),
     Request(Op.Push(id, None, None, Some("sheets"), TRIANGLE), env),
     Request(Op.Accept(id, 1, "~"), env)]
  }

  function Created(id: string): Blueprint { FirstRevision(id, "Bed", None, None, TRIANGLE, "") }

  function PushedTo(b: Blueprint): Blueprint {
    b.(lastPendingId := 1, takenAt := "~", pending := [Pending(1, "~", None, None, Some("sheets"), TRIANGLE)])
  }

  function Shown(b: Blueprint): Docs { map[b.id := b] }

  lemma EarlyCreate(id: string)
    requires PathSafe(id)
    ensures Next(map[], EarlyTurns(id)[0]) == Shown(Created(id)) && Enabled(map[], EarlyTurns(id)[0])
  {
    hide PathSafe, CleanName, ContentOk;
    TriangleIsContent();
    BedIsName();
    var t := EarlyTurns(id)[0];
    assert RequestOk(t.op);
    hide RequestOk;
    assert Answer(map[], t.op, t.env) == Ok(Created(id));
  }

  lemma EarlyPush(id: string)
    requires PathSafe(id)
    ensures Next(Shown(Created(id)), EarlyTurns(id)[1]) == Shown(PushedTo(Created(id)))
    ensures Enabled(Shown(Created(id)), EarlyTurns(id)[1])
  {
    hide PathSafe, ContentOk;
    TriangleIsContent();
    var b, t := Created(id), EarlyTurns(id)[1];
    var p := Pending(1, "~", None, None, Some("sheets"), TRIANGLE);
    assert [] + [p] == [p];
    assert NextStamp("", "") == "~";
    assert RequestOk(t.op) && Edit(b, t.op, "") == Ok(PushedTo(b));
    hide Edit, RequestOk;
    assert Answer(Shown(b), t.op, t.env) == Ok(PushedTo(b));
    assert Shown(b)[id := PushedTo(b)] == Shown(PushedTo(b));
  }

  lemma EarlyAccept(id: string)
    requires PathSafe(id)
    ensures Answer(Shown(PushedTo(Created(id))), EarlyTurns(id)[2].op, EarlyTurns(id)[2].env).Ok?
    ensures Enabled(Shown(PushedTo(Created(id))), EarlyTurns(id)[2])
  {
    hide PathSafe, MaxNumber, NextStamp;
  }

  ghost function EarlyStates(id: string): seq<Docs> {
    [map[], Shown(Created(id)), Shown(PushedTo(Created(id))), Next(Shown(PushedTo(Created(id))), EarlyTurns(id)[2])]
  }

  lemma EarlyIsRun(id: string)
    requires PathSafe(id)
    ensures Run(EarlyStates(id), EarlyTurns(id))
  {
    hide PathSafe, Next, Answer, Enabled, Shown, Created, PushedTo;
    EarlyCreate(id);
    EarlyPush(id);
    EarlyAccept(id);
  }

  lemma EarlyLedger(id: string)
    ensures var pushed := LedgerAt(EarlyStates(id), EarlyTurns(id), id, 2).pushed;
            1 in pushed && pushed[1].bundle == Some("sheets")
  {
    hide TrimNote, Next;
    var states, turns := EarlyStates(id), EarlyTurns(id);
    assert Created(id).lastPendingId != PushedTo(Created(id)).lastPendingId;
    assert LedgerAt(states, turns, id, 1) == Ledger(map[], map[]);
    assert LedgerAt(states, turns, id, 2) == Record(Ledger(map[], map[]), Created(id), turns[1].op);
  }

  /** The side on which the bundle is the wrong one occurs: read between creation and push, and accepted under a base
    * that was guessed, the revision comes without the bundle that was pushed with it. A client whose base came from
    * a read cannot get there, by AcceptAppliesRightBundle. */
  lemma GuessedBaseMissesBundle() returns (states: seq<Docs>, turns: seq<Turn>, id: string)
    ensures Run(states, turns) && |turns| == 3 && turns[2].Request? && turns[2].op == Op.Accept(id, 1, "~")
    ensures id in states[1] && Answer(states[2], turns[2].op, turns[2].env).Ok?
    ensures var pushed := LedgerAt(states, turns, id, 2).pushed;
            && 1 in pushed && pushed[1].bundle == Some("sheets")
            && WaitingBundle(states[1][id], 1) == None
  {
    id := Ids.BlueprintId(1, 1);
    Ids.MadeIdsAreSafe(1, 1);
    hide Ids.BlueprintId, PathSafe, Next, Answer, Run, LedgerAt, PushedTo;
    states, turns := EarlyStates(id), EarlyTurns(id);
    EarlyIsRun(id);
    EarlyAccept(id);
    EarlyLedger(id);
  }
}
