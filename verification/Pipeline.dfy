/** From delivered events to the evidence of a card: the ingest and memory tables of one
    database, and the extraction service between them
    (src/codememory/extraction/service.py:64-180, extraction/context.py:127-268). */
module Pipeline {
  import opened Base
  import opened Events
  import opened Repository
  import opened Extraction
  import Ingest
  import IngestTheorems
  import Memory
  import MemoryTheorems
  import Context

  /** Who owns each stored event. */
  function Owners(s: Ingest.Store): map<string, Memory.Owner> {
    map id | id in s.events :: OwnerOf(s.events[id])
  }

  function OwnerOf(e: Event): Memory.Owner { Memory.Owner(e.project, e.task) }

  /** What the envelope's own validation guarantees of an event. */
  predicate Named(e: Event) { e.id != "" && e.project != "" }

  ghost predicate AllNamed(s: Ingest.Store) { forall id :: id in s.events ==> Named(s.events[id]) }

  /******* Ingest and memory traffic interleaved *******/

  datatype World = World(store: Ingest.Store, memory: Memory.Store)

  datatype Action = Deliver(event: Event) | Remember(op: Memory.Op)

  const START := World(Ingest.EMPTY, Memory.EMPTY)

  /** Events enter only by ingest; every other operation is one the memory allows. */
  predicate Allowed(w: World, a: Action) {
    match a
    case Deliver(e) => Named(e)
    case Remember(op) => !op.AddEvent? && Memory.Legal(w.memory, op)
  }

  ghost function Act(w: World, a: Action): World
    requires Allowed(w, a)
  {
    match a
    case Deliver(e) =>
      var o := Ingest.Step(w.store, e);
      World(o.store,
            if o.verdict.Accepted? then Memory.Apply(w.memory, Memory.AddEvent(e.id, OwnerOf(e))) else w.memory)
    case Remember(op) => World(w.store, Memory.Apply(w.memory, op))
  }

  ghost predicate Lawful(w: World, actions: seq<Action>)
    decreases |actions|
  {
    actions == [] || (Allowed(w, actions[0]) && Lawful(Act(w, actions[0]), actions[1..]))
  }

  ghost function Play(w: World, actions: seq<Action>): World
    requires Lawful(w, actions)
    decreases |actions|
  {
    if actions == [] then w else Play(Act(w, actions[0]), actions[1..])
  }

  /** One database: both invariants hold, and the events the memory cites are the ingested
      ones, with their owners. */
  ghost predicate Joined(w: World) {
    && IngestTheorems.Inv(w.store) && MemoryTheorems.Inv(w.memory)
    && w.memory.events == Owners(w.store) && AllNamed(w.store)
  }

  lemma StartJoined()
    ensures Joined(START)
  {
    IngestTheorems.EmptyInv();
    MemoryTheorems.EmptyInv();
  }

  lemma ActJoined(w: World, a: Action)
    requires Joined(w) && Allowed(w, a)
    ensures Joined(Act(w, a))
  {
    hide IngestTheorems.Inv, MemoryTheorems.Inv, Ingest.Step, Memory.Legal;
    match a
    case Deliver(e) =>
      IngestTheorems.StepInv(w.store, e);
      IngestTheorems.NotAcceptedUnchanged(w.store, e);
      if Ingest.Step(w.store, e).verdict.Accepted? {
        AcceptedEvent(w.store, e);
        assert Memory.Legal(w.memory, Memory.AddEvent(e.id, OwnerOf(e))) by { AddLegal(w.memory, e); }
        MemoryTheorems.ApplyInv(w.memory, Memory.AddEvent(e.id, OwnerOf(e)));
        assert Owners(Ingest.Step(w.store, e).store) == Owners(w.store)[e.id := OwnerOf(e)];
      }
    case Remember(op) =>
      MemoryTheorems.ApplyInv(w.memory, op);
      EventsKept(w.memory, op);
  }

  lemma AddLegal(m: Memory.Store, e: Event)
    ensures Memory.Legal(m, Memory.AddEvent(e.id, OwnerOf(e)))
  {
  }

  lemma AcceptedEvent(s: Ingest.Store, e: Event)
    requires Ingest.Step(s, e).verdict.Accepted?
    ensures e.id !in s.events && Ingest.Step(s, e).store.events == s.events[e.id := e]
  {
  }

  lemma EventsKept(m: Memory.Store, op: Memory.Op)
    requires Memory.Legal(m, op) && !op.AddEvent?
    ensures Memory.Apply(m, op).events == m.events
  {
  }

  lemma {:induction false} PlayJoined(w: World, actions: seq<Action>)
    requires Joined(w) && Lawful(w, actions)
    ensures Joined(Play(w, actions))
    decreases |actions|
  {
    hide Joined, Allowed, Act;
    if actions != [] {
      ActJoined(w, actions[0]);
      PlayJoined(Act(w, actions[0]), actions[1..]);
    }
  }

  /******* Evidence traces back to deliveries *******/

  /** The evidence row cites an ingested event of its candidate's task and of the card's project. */
  ghost predicate Backed(w: World, e: Memory.Evidence) {
    && e.candidate in w.memory.candidates && e.event in w.store.events
    && w.store.events[e.event].id == e.event
    && w.store.events[e.event].task == w.memory.candidates[e.candidate].task
    && w.store.events[e.event].project == w.memory.candidates[e.candidate].project == e.version.card.project
  }

  lemma EvidenceBacked(w: World, e: Memory.Evidence)
    requires Joined(w) && e in w.memory.evidence
    ensures Backed(w, e)
  {
    hide MemoryTheorems.Chained, MemoryTheorems.Confident, MemoryTheorems.Logged;
    MemoryTheorems.EvidenceClosure(w.memory, e);
    assert w.memory.events[e.event] == OwnerOf(w.store.events[e.event]);
  }

  /** Stored events are delivered ones, unchanged. */
  lemma {:induction false} StoredWasDelivered(w: World, actions: seq<Action>, id: string)
    requires Joined(w) && Lawful(w, actions) && id in Play(w, actions).store.events
    ensures (id in w.store.events && Play(w, actions).store.events[id] == w.store.events[id])
            || Deliver(Play(w, actions).store.events[id]) in actions
    decreases |actions|
  {
    hide Joined, Allowed, Ingest.Step, Memory.Apply;
    if actions != [] {
      ActJoined(w, actions[0]);
      StoredWasDelivered(Act(w, actions[0]), actions[1..], id);
      StepStores(w, actions[0]);
      assert actions == [actions[0]] + actions[1..];
    }
  }

  lemma StepStores(w: World, a: Action)
    requires Allowed(w, a)
    ensures var now := Act(w, a).store.events;
            && (a.Deliver? ==> now == w.store.events || now == w.store.events[a.event.id := a.event])
            && (a.Remember? ==> now == w.store.events)
  {
    hide Ingest.Step, Memory.Apply, Memory.Legal;
    if a.Deliver? {
      IngestTheorems.NotAcceptedUnchanged(w.store, a.event);
      if Ingest.Step(w.store, a.event).verdict.Accepted? {
        AcceptedEvent(w.store, a.event);
      }
    }
  }

  /** Every evidence row of every run, however ingest, extraction, consolidation and
      transitions interleave: its event was delivered, for the candidate's task and the
      card's project, and is stored as delivered. */
  lemma EvidenceWasDelivered(actions: seq<Action>, e: Memory.Evidence)
    requires Lawful(START, actions) && e in Play(START, actions).memory.evidence
    ensures var w := Play(START, actions);
            Backed(w, e) && Deliver(w.store.events[e.event]) in actions
  {
    hide Joined, Play, Lawful;
    StartJoined();
    PlayJoined(START, actions);
    EvidenceBacked(Play(START, actions), e);
    StoredWasDelivered(START, actions, e.event);
  }

  /** What backs a row never goes away: the row, its candidate and its event stay as they are. */
  ghost predicate Keeps(w: World, v: World, e: Memory.Evidence) {
    && e in v.memory.evidence
    && e.candidate in w.memory.candidates && e.candidate in v.memory.candidates
    && v.memory.candidates[e.candidate] == w.memory.candidates[e.candidate]
    && e.event in w.store.events && e.event in v.store.events
    && v.store.events[e.event] == w.store.events[e.event]
  }

  lemma EvidenceStep(m: Memory.Store, op: Memory.Op, e: Memory.Evidence)
    requires MemoryTheorems.Inv(m) && Memory.Legal(m, op) && e in m.evidence
    ensures var t := Memory.Apply(m, op);
            e in t.evidence && e.candidate in m.candidates
            && e.candidate in t.candidates && t.candidates[e.candidate] == m.candidates[e.candidate]
  {
    hide MemoryTheorems.Chained, MemoryTheorems.Confident, MemoryTheorems.Logged, Memory.Remaining, Memory.WithAll;
    if op.RecordSuccess? {
      MemoryTheorems.RecordKeepsAll(m, op.run, op.batch);
    }
  }

  lemma {:induction false} EvidencePermanent(w: World, more: seq<Action>, e: Memory.Evidence)
    requires Joined(w) && Lawful(w, more) && e in w.memory.evidence
    ensures Keeps(w, Play(w, more), e)
    decreases |more|
  {
    hide IngestTheorems.Inv, MemoryTheorems.Inv, Ingest.Step, Memory.Apply, Memory.Legal, Owners;
    EvidenceBacked(w, e);
    if more != [] {
      var a := more[0];
      ActJoined(w, a);
      match a {
        case Deliver(event) =>
          IngestTheorems.NotAcceptedUnchanged(w.store, event);
          if Ingest.Step(w.store, event).verdict.Accepted? {
            AcceptedEvent(w.store, event);
            AddLegal(w.memory, event);
            EvidenceStep(w.memory, Memory.AddEvent(event.id, OwnerOf(event)), e);
          }
        case Remember(op) => EvidenceStep(w.memory, op, e);
      }
      EvidencePermanent(Act(w, a), more[1..], e);
    }
  }

  /******* A timeline *******/

  predicate Asked(e: Event, task: string, session: Option<string>) {
    e.task == task && (Truthy(session) ==> e.session == session)
  }

  /** ORDER BY seq, occurred_at within a session, and occurred_at, seq across a task. */
  predicate NotAfter(session: Option<string>, a: Event, b: Event) {
    if Truthy(session) then a.seqNo < b.seqNo || (a.seqNo == b.seqNo && a.occurredAt <= b.occurredAt)
    else a.occurredAt < b.occurredAt || (a.occurredAt == b.occurredAt && a.seqNo <= b.seqNo)
  }

  function RowIds(rows: seq<Event>): set<string> { set e | e in rows :: e.id }

  /** The first `limit` rows asked for, in order. */
  ghost predicate Timeline(events: map<string, Event>, task: string, session: Option<string>, limit: nat,
                           rows: seq<Event>) {
    && (forall e :: e in rows ==> e.id in events && events[e.id] == e && Asked(e, task, session))
    && (forall i, j :: 0 <= i < j < |rows| ==> rows[i].id != rows[j].id && NotAfter(session, rows[i], rows[j]))
    && |rows| <= limit
    && (forall id :: id in events && Asked(events[id], task, session) && id !in RowIds(rows) ==>
          |rows| == limit && forall e :: e in rows ==> NotAfter(session, e, events[id]))
  }

  lemma {:induction false} FirstExists(events: map<string, Event>, session: Option<string>, ids: set<string>)
    returns (id: string)
    requires ids != {} && ids <= events.Keys
    ensures id in ids && forall o :: o in ids ==> NotAfter(session, events[id], events[o])
    decreases |ids|
  {
    id :| id in ids;
    if ids != {id} {
      assert |ids - {id}| < |ids|;
      var best := FirstExists(events, session, ids - {id});
      if !NotAfter(session, events[id], events[best]) {
        id := best;
      }
    }
  }

  function AskedIds(events: map<string, Event>, task: string, session: Option<string>): set<string> {
    set id | id in events && Asked(events[id], task, session)
  }

  /** `rows` are read, `left` are not, and every row read comes before those left. */
  ghost predicate Reading(events: map<string, Event>, task: string, session: Option<string>, rows: seq<Event>,
                          left: set<string>) {
    && left <= AskedIds(events, task, session) && RowIds(rows) == AskedIds(events, task, session) - left
    && (forall e :: e in rows ==> e.id in events && events[e.id] == e)
    && (forall i, j :: 0 <= i < j < |rows| ==> rows[i].id != rows[j].id && NotAfter(session, rows[i], rows[j]))
    && (forall e, id :: e in rows && id in left ==> NotAfter(session, e, events[id]))
  }

  lemma ReadMore(events: map<string, Event>, task: string, session: Option<string>, rows: seq<Event>, left: set<string>,
                 id: string)
    requires Reading(events, task, session, rows, left) && id in left && events[id].id == id
    requires forall o :: o in left ==> NotAfter(session, events[id], events[o])
    ensures Reading(events, task, session, rows + [events[id]], left - {id})
  {
    hide NotAfter, Asked;
    var e := events[id];
    forall i | 0 <= i < |rows| ensures rows[i].id != id && NotAfter(session, rows[i], e) {
      assert rows[i] in rows && rows[i].id in RowIds(rows);
    }
    assert RowIds(rows + [e]) == RowIds(rows) + {id};
  }

  lemma ReadDone(events: map<string, Event>, task: string, session: Option<string>, limit: nat, rows: seq<Event>,
                 left: set<string>)
    requires Reading(events, task, session, rows, left) && |rows| <= limit && (left == {} || |rows| == limit)
    ensures Timeline(events, task, session, limit, rows)
  {
    hide NotAfter, Asked;
    forall e | e in rows ensures Asked(e, task, session) {
      assert e.id in RowIds(rows);
    }
  }

  method ReadTimeline(events: map<string, Event>, task: string, session: Option<string>, limit: nat)
    returns (rows: seq<Event>)
    requires forall id :: id in events ==> events[id].id == id
    ensures Timeline(events, task, session, limit, rows)
  {
    hide NotAfter, Asked, Reading, Timeline;
    rows := [];
    var left := AskedIds(events, task, session);
    assert Reading(events, task, session, rows, left) by { NoneRead(events, task, session); }
    while left != {} && |rows| < limit
      invariant left <= events.Keys && |rows| <= limit && Reading(events, task, session, rows, left)
      decreases |left|
    {
      ghost var w := FirstExists(events, session, left);
      assert w in left && forall o :: o in left ==> NotAfter(session, events[w], events[o]);
      var id :| id in left && forall o :: o in left ==> NotAfter(session, events[id], events[o]);
      ReadMore(events, task, session, rows, left, id);
      rows := rows + [events[id]];
      left := left - {id};
    }
    ReadDone(events, task, session, limit, rows, left);
  }

  lemma NoneRead(events: map<string, Event>, task: string, session: Option<string>)
    ensures Reading(events, task, session, [], AskedIds(events, task, session))
  {
  }

  /******* Extraction *******/

  /** The events of a context all belong to its task and its project. */
  ghost predicate OwnedContext(s: Ingest.Store, cx: Extraction.Context) {
    && cx.events != {}
    && forall id :: id in cx.events ==> id in s.events && OwnerOf(s.events[id]) == Memory.Owner(cx.project, cx.task)
  }

  /** A task has one project, so its first row's project owns every row of its timeline. */
  lemma TimelineOwned(s: Ingest.Store, task: string, session: Option<string>, limit: nat, rows: seq<Event>,
                      cx: Extraction.Context)
    requires IngestTheorems.Inv(s) && Timeline(s.events, task, session, limit, rows) && rows != []
    requires cx.task == task && cx.project == rows[0].project && cx.events != {} && cx.events <= RowIds(rows)
    ensures OwnedContext(s, cx)
  {
    hide IngestTheorems.Inv, NotAfter, Asked;
    assert Asked(rows[0], task, session);
    forall id | id in cx.events ensures id in s.events && OwnerOf(s.events[id]) == Memory.Owner(cx.project, cx.task) {
      var e :| e in rows && e.id == id;
      assert Asked(e, task, session) && e.task == task by { AskedTask(e, task, session); }
      AskedTask(rows[0], task, session);
      IngestTheorems.TaskHasOneProject(s, rows[0].id, id);
    }
  }

  lemma AskedTask(e: Event, task: string, session: Option<string>)
    requires Asked(e, task, session)
    ensures e.task == task
  {
  }

  /** What the assembler hands to the provider. */
  datatype Prepared = Prepared(context: Extraction.Context, assembled: Context.Assembled)

  function SelectedIds(a: Context.Assembled): set<string> { set p | p in a.events :: p.row.id }

  /** Whatever the assembler selects are rows it was given. */
  lemma SelectedRows(assembler: Context.ContextAssembler, rows: seq<Context.Row>, a: Context.Assembled)
    requires assembler.Bounded(Context.Unique(rows), a.events)
    ensures SelectedIds(a) != {} && SelectedIds(a) <= Context.Ids(rows)
  {
    var unique := Context.Unique(rows);
    Context.UniqueExact(rows);
    var h: nat, t: nat :| assembler.Ends(unique, a.events, h, t);
    var cut := assembler.CutAll(unique);
    forall p | p in a.events ensures p.row.id in Context.Ids(rows) {
      var i :| 0 <= i < |a.events| && a.events[i] == p;
      assert p == cut[if i < h then i else |unique| - t + (i - h)];
      assert p.row.id in Context.Ids(unique);
    }
    assert a.events[0].row.id in SelectedIds(a);
  }

  class ExtractionService {
    const repository: MemoryRepository
    const store: ExtractionStore
    const assembler: Context.ContextAssembler
    /** The text and the other columns of a row, and the hash of an assembled context. */
    const text: Event -> string
    const rest: Event -> string
    const digest: Prepared -> string

    constructor (repository: MemoryRepository, store: ExtractionStore, assembler: Context.ContextAssembler,
                 text: Event -> string, rest: Event -> string, digest: Prepared -> string)
      ensures this.repository == repository && this.store == store && this.assembler == assembler
    {
      this.repository, this.store, this.assembler := repository, store, assembler;
      this.text, this.rest, this.digest := text, rest, digest;
    }

    /** The tables the two stores share. */
    ghost function Tables(): World
      reads repository, store, store.db
    {
      World(repository.State(), store.db.State())
    }

    ghost predicate Valid()
      reads repository, store, store.db
    {
      Joined(Tables()) && assembler.Valid()
    }

    function RowsOf(rows: seq<Event>): (r: seq<Context.Row>)
      ensures Context.Ids(r) == RowIds(rows)
    {
      var r := seq(|rows|, i requires 0 <= i < |rows| => Context.Row(rows[i].id, text(rows[i]), rest(rows[i])));
      assert forall e :: e in rows ==> e.id in Context.Ids(r) by {
        forall e | e in rows ensures e.id in Context.Ids(r) {
          var i :| 0 <= i < |rows| && rows[i] == e;
          assert r[i].id == e.id;
        }
      }
      r
    }

    /** The rows name this session and no other. */
    static predicate Only(rows: seq<Event>, session: Option<string>) {
      && Truthy(session) && (exists e :: e in rows && e.session == session)
      && forall e :: e in rows && Truthy(e.session) ==> e.session == session
    }

    static ghost predicate Effective(rows: seq<Event>, session: Option<string>, r: Option<string>) {
      && (session.Some? ==> r == session)
      && (session.None? && r.Some? ==> Only(rows, r))
      && (session.None? && r.None? ==> forall e :: e in rows ==> !Only(rows, e.session))
    }

    /** A bounded choice from both ends of these rows, under the first row's project. */
    ghost predicate Prepares(rows: seq<Event>, task: string, session: Option<string>, p: Prepared) {
      && rows != [] && p.context.project == rows[0].project && p.context.task == task
      && Effective(rows, session, p.context.session) && p.context.events == SelectedIds(p.assembled)
      && assembler.Bounded(Context.Unique(RowsOf(rows)), p.assembled.events)
      && (!p.assembled.truncated ==> assembler.Whole(Context.Unique(RowsOf(rows)), p.assembled.events))
    }

    /** The session asked for, or the only one the rows name. */
    static method SessionOf(rows: seq<Event>, session: Option<string>) returns (r: Option<string>)
      ensures Effective(rows, session, r)
    {
      var named := set e | e in rows && Truthy(e.session) :: e.session;
      assert forall e :: e in rows && Truthy(e.session) ==> e.session in named;
      assert forall e :: e in rows && Only(rows, e.session) ==> named == {e.session};
      r := session;
      if session.None? && |named| == 1 {
        r :| r in named;
        assert named == {r} by { assert |named - {r}| == 0; }
      }
    }

    /** Refuses exactly the task without events, and otherwise selects from its own. */
    method Assemble(task: string, session: Option<string>) returns (r: Option<Prepared>, ghost rows: seq<Event>)
      requires Valid()
      ensures Timeline(repository.events, task, session, 5000, rows)
      ensures r.None? <==> AskedIds(repository.events, task, session) == {}
      ensures r.Some? ==>
                && Prepares(rows, task, session, r.value)
                && r.value.context.events <= AskedIds(repository.events, task, session)
                && OwnedContext(repository.State(), r.value.context)
    {
      hide IngestTheorems.Inv, MemoryTheorems.Inv, Asked, NotAfter, OwnedContext, Effective, Timeline;
      ghost var s := repository.State();
      assert forall id :: id in repository.events ==> repository.events[id].id == id by { KeysAreIds(s); }
      var read := ReadTimeline(repository.events, task, session, 5000);
      rows := read;
      RowsAsked(s, task, session, rows);
      Context.UniqueExact(RowsOf(read));
      var assembled := assembler.Assemble(RowsOf(read));
      if assembled.None? {
        assert Context.Ids(RowsOf(read)) == {};
        return None, rows;
      }
      SelectedRows(assembler, RowsOf(read), assembled.value);
      var effective := SessionOf(read, session);
      var context := Extraction.Context(read[0].project, task, effective, SelectedIds(assembled.value));
      TimelineOwned(s, task, session, 5000, read, context);
      r := Some(Prepared(context, assembled.value));
    }

    /** One extraction of a task: a stored generation is a step the memory allows beside
        ingest, so its evidence is the task's own ingested events. */
    method ExtractTask(task: string, session: Option<string>, newId: string, force: bool, provider: string,
                       extractor: string, prompt: string, answer: Provider)
      returns (r: Option<Result>, ghost rows: seq<Event>, ghost p: Option<Prepared>, ghost end: Ending,
               ghost stored: seq<Memory.Candidate>)
      requires Valid()
      requires answer.Answers? ==> forall c :: c in answer.batch.candidates ==> c.Typed()
      modifies store`runs, store.db`candidates
      ensures Valid()
      ensures r.None? <==> AskedIds(repository.events, task, session) == {}
      ensures r.None? ==> store.runs == old(store.runs)
      ensures r.Some? ==>
                && Timeline(repository.events, task, session, 5000, rows) && p.Some?
                && Prepares(rows, task, session, p.value)
                && var key := RunKey(task, digest(p.value), extractor, prompt);
                   var known := old(store.runs);
                   var before := if key in known then Some(known[key]) else None;
                   && store.runs == known[key := Attempt(before, newId, force, end)]
                   && (r.value.DuplicateRun? || r.value.InProgress? || r.value.DeadLettered? <==>
                      Blocked(before, force))
                   && (r.value.Extracted? <==> !Blocked(before, force) && answer.Answers?
                                               && WellFormed(answer.batch, store.runs[key].id, provider,
                                                             p.value.context))
                   && (r.value.Failed? ==> end.Failure?)
      ensures r.Some? && r.value.Extracted? ==>
                && |stored| == r.value.count && end.Success?
                && (exists run :: var a := Remember(Memory.RecordSuccess(run, stored));
                                  Allowed(old(Tables()), a) && Tables() == Act(old(Tables()), a))
                && (forall c, id :: c in stored && id in c.evidence ==>
                      && id in AskedIds(repository.events, task, session)
                      && OwnerOf(repository.events[id]) == Memory.Owner(c.project, c.task))
      ensures r.None? || !r.value.Extracted? ==> Tables() == old(Tables())
    {
      hide IngestTheorems.Inv, MemoryTheorems.Inv, Memory.Apply, Memory.Legal, Asked, WellFormed, Timeline, Prepares;
      stored, end := [], Crash;
      var prepared;
      prepared, rows := Assemble(task, session);
      p := prepared;
      if prepared.None? {
        return None, rows, p, end, stored;
      }
      ghost var before := Tables();
      var cx := prepared.value.context;
      assert forall id :: id in cx.events ==>
        id in store.db.events && store.db.events[id] == Memory.Owner(cx.project, cx.task);
      var key := RunKey(task, digest(prepared.value), extractor, prompt);
      var result;
      result, end := store.ExtractTask(key, newId, force, provider, answer, cx);
      r := Some(result);
      if result.Extracted? {
        var run := store.runs[key].id;
        stored :| ExtractionStore.Renamed(answer.batch, run, stored)
                  && Memory.Legal(before.memory, Memory.RecordSuccess(run, stored))
                  && store.db.State() == Memory.Apply(before.memory, Memory.RecordSuccess(run, stored));
        assert Tables() == Act(before, Remember(Memory.RecordSuccess(run, stored)));
        StoredEvidence(answer.batch, run, provider, cx, stored);
      }
    }
  }

  lemma StoredEvidence(batch: Extraction.Batch, run: string, provider: string, cx: Extraction.Context,
                       stored: seq<Memory.Candidate>)
    requires WellFormed(batch, run, provider, cx) && ExtractionStore.Renamed(batch, run, stored)
    ensures |stored| == |batch.candidates|
    ensures forall c, id :: c in stored && id in c.evidence ==>
              id in cx.events && c.project == cx.project && c.task == cx.task
  {
    forall c, id | c in stored && id in c.evidence
      ensures id in cx.events && c.project == cx.project && c.task == cx.task
    {
      var i :| 0 <= i < |stored| && stored[i] == c;
      assert CandidateGrounded(batch.candidates[i], batch.sources, cx.events);
      assert id in Members(batch.candidates[i].evidence);
    }
  }

  lemma KeysAreIds(s: Ingest.Store)
    requires IngestTheorems.Inv(s)
    ensures forall id :: id in s.events ==> s.events[id].id == id
  {
  }

  /** Rows are read exactly when some event is asked for, and no row lacks an id. */
  lemma RowsAsked(s: Ingest.Store, task: string, session: Option<string>, rows: seq<Event>)
    requires AllNamed(s) && Timeline(s.events, task, session, 5000, rows)
    ensures "" !in RowIds(rows) && RowIds(rows) <= AskedIds(s.events, task, session)
    ensures rows == [] <==> AskedIds(s.events, task, session) == {}
    ensures rows == [] <==> RowIds(rows) == {}
  {
    hide Asked, NotAfter;
    if rows != [] {
      assert rows[0].id in RowIds(rows) && rows[0].id in AskedIds(s.events, task, session);
    }
    if id :| id in AskedIds(s.events, task, session) {
      assert id in s.events && Asked(s.events[id], task, session);
    }
  }
}
