/** The canonical event store as a value, and one ingest as a function on it
    (src/codememory/storage/repository.py). The clock columns of the outbox are
    left to `Outbox`: `jobs` here is the immutable payload of each job row. */
module Ingest {
  import opened Base
  import opened Events

  datatype Project = Project(createdAt: int, updatedAt: int)
  datatype Task = Task(project: string, createdAt: int, updatedAt: int)
  datatype Repo = Repo(project: string, root: string, vcs: string, createdAt: int, updatedAt: int)
  datatype Session = Session(task: string, agent: string, adapter: string, startedAt: int,
                             endedAt: Option<int>, ended: bool, lastSeq: int)
  datatype Payload = Payload(kind: EventType, project: string, task: string, session: Option<string>)

  datatype Store = Store(
    projects: map<string, Project>,
    tasks: map<string, Task>,
    repos: map<string, Repo>,
    sessions: map<string, Session>,
    events: map<string, Event>,
    jobs: map<string, Payload>,
    fts: multiset<string>)

  const EMPTY := Store(map[], map[], map[], map[], map[], map[], multiset{})

  /** `Conflict` is the ConflictError of the source. `Fault` is a constraint
      violation that no handler in the ingest path turns into a ConflictError. */
  datatype Verdict = Accepted | Duplicate(of: string) | Conflict(at: Option<string>) | Fault {
    predicate Rejected() { Conflict? || Fault? }
  }

  datatype Outcome = Outcome(store: Store, verdict: Verdict)

  /******* Unique indexes *******/

  predicate SameExternal(a: Event, b: Event) {
    a.externalId.Some? && a.externalId == b.externalId && a.agent == b.agent && a.adapter == b.adapter
  }

  predicate SameSlot(a: Event, b: Event) {
    a.session.Some? && a.session == b.session && a.seqNo == b.seqNo
  }

  function ExternalHits(events: map<string, Event>, e: Event): set<string> {
    set id | id in events && SameExternal(events[id], e)
  }

  function SlotHits(events: map<string, Event>, e: Event): set<string> {
    set id | id in events && SameSlot(events[id], e)
  }

  ghost function Pick(ids: set<string>): string
    requires ids != {}
  {
    var id :| id in ids; id
  }

  /** The row the three identity lookups find, in their order. */
  ghost function Existing(events: map<string, Event>, e: Event): (r: Option<string>)
    ensures r.Some? ==> r.value in events
  {
    if e.id in events then Some(e.id)
    else if Truthy(e.externalId) && ExternalHits(events, e) != {} then Some(Pick(ExternalHits(events, e)))
    else if Truthy(e.session) && SlotHits(events, e) != {} then Some(Pick(SlotHits(events, e)))
    else None
  }

  /******* Ownership and constraint checks *******/

  predicate TaskTaken(s: Store, e: Event) {
    e.task in s.tasks && s.tasks[e.task].project != e.project
  }

  predicate RepoTaken(s: Store, e: Event) {
    var id := RepoId(e);
    id.Some? && id.value in s.repos
    && (s.repos[id.value].project != e.project || s.repos[id.value].root != RepoRoot(e))
  }

  /** A new repository id for a (project, root) that another id already holds. */
  predicate RepoClash(s: Store, e: Event) {
    var id := RepoId(e);
    id.Some? && id.value !in s.repos
    && exists r :: r in s.repos && s.repos[r].project == e.project && s.repos[r].root == RepoRoot(e)
  }

  predicate SessionTaken(s: Store, e: Event) {
    Truthy(e.session) && e.session.value in s.sessions
    && var row := s.sessions[e.session.value];
       row.task != e.task || row.agent != e.agent || row.adapter != e.adapter
  }

  /** The INSERT itself fails: an index entry the truthiness tests skipped, or a
      session id without a session row. */
  predicate InsertBlocked(events: map<string, Event>, sessions: map<string, Session>, e: Event) {
    || e.id in events
    || ExternalHits(events, e) != {}
    || SlotHits(events, e) != {}
    || (e.session.Some? && e.session.value !in sessions)
  }

  /******* Row updates *******/

  function TouchProject(m: map<string, Project>, e: Event): map<string, Project> {
    if e.project in m
    then m[e.project := m[e.project].(updatedAt := Max(m[e.project].updatedAt, e.occurredAt))]
    else m[e.project := Project(e.occurredAt, e.occurredAt)]
  }

  function TouchTask(m: map<string, Task>, e: Event): map<string, Task> {
    if e.task in m
    then m[e.task := m[e.task].(project := e.project, updatedAt := Max(m[e.task].updatedAt, e.occurredAt))]
    else m[e.task := Task(e.project, e.occurredAt, e.occurredAt)]
  }

  function TouchRepo(m: map<string, Repo>, e: Event): map<string, Repo> {
    var id := RepoId(e);
    if id.None? then m
    else if id.value in m
    then m[id.value := m[id.value].(project := e.project, root := RepoRoot(e), vcs := RepoVcs(e),
                                    updatedAt := Max(m[id.value].updatedAt, e.occurredAt))]
    else m[id.value := Repo(e.project, RepoRoot(e), RepoVcs(e), e.occurredAt, e.occurredAt)]
  }

  function TouchSession(m: map<string, Session>, e: Event): map<string, Session> {
    if !Truthy(e.session) then m
    else
      var id := e.session.value;
      if id in m
      then m[id := m[id].(task := e.task, agent := e.agent, adapter := e.adapter,
                          lastSeq := Max(m[id].lastSeq, e.seqNo))]
      else m[id := Session(e.task, e.agent, e.adapter, e.occurredAt, None, false, e.seqNo)]
  }

  function CloseSession(m: map<string, Session>, e: Event): map<string, Session> {
    if !Truthy(e.session) || e.session.value !in m then m
    else
      var id := e.session.value;
      var row := m[id].(lastSeq := Max(m[id].lastSeq, e.seqNo));
      m[id := if e.kind.SessionEnded? then row.(ended := true, endedAt := Some(e.occurredAt)) else row]
  }

  function PayloadOf(e: Event): Payload {
    Payload(e.kind, e.project, e.task, e.session)
  }

  function Insert(s: Store, e: Event): Store {
    Store(TouchProject(s.projects, e), TouchTask(s.tasks, e), TouchRepo(s.repos, e),
          CloseSession(TouchSession(s.sessions, e), e),
          s.events[e.id := e], s.jobs[e.id := PayloadOf(e)], s.fts + multiset{e.id})
  }

  /** One event in its own transaction: a rejected event leaves the store as it was. */
  ghost function Step(s: Store, e: Event): Outcome {
    var found := Existing(s.events, e);
    if found.Some? then
      if s.events[found.value] == e then Outcome(s, Duplicate(found.value)) else Outcome(s, Conflict(found))
    else if TaskTaken(s, e) then Outcome(s, Conflict(Some(e.task)))
    else if RepoTaken(s, e) then Outcome(s, Conflict(RepoId(e)))
    else if RepoClash(s, e) then Outcome(s, Fault)
    else if SessionTaken(s, e) then Outcome(s, Conflict(e.session))
    else if InsertBlocked(s.events, TouchSession(s.sessions, e), e) then Outcome(s, Conflict(None))
    else if e.id in s.jobs then Outcome(s, Fault)
    else Outcome(Insert(s, e), Accepted)
  }

  /** Successive calls, each in its own transaction, whatever each returns. */
  datatype Trace = Trace(store: Store, verdicts: seq<Verdict>)

  ghost function Run(s: Store, es: seq<Event>): (t: Trace)
    ensures |t.verdicts| == |es|
    decreases |es|
  {
    if es == [] then Trace(s, [])
    else
      var before := Run(s, es[..|es| - 1]);
      var last := Step(before.store, es[|es| - 1]);
      Trace(last.store, before.verdicts + [last.verdict])
  }

  ghost predicate Reachable(s: Store) {
    exists es :: s == Run(EMPTY, es).store
  }

  lemma RunSnoc(s: Store, es: seq<Event>, e: Event)
    ensures Run(s, es + [e]) ==
            var t := Run(s, es);
            Trace(Step(t.store, e).store, t.verdicts + [Step(t.store, e).verdict])
  {
    hide Step;
    assert (es + [e])[..|es|] == es;
  }

  lemma {:induction false} RunAppend(s: Store, a: seq<Event>, b: seq<Event>)
    ensures Run(s, a + b) == Trace(Run(Run(s, a).store, b).store,
                                   Run(s, a).verdicts + Run(Run(s, a).store, b).verdicts)
    decreases |b|
  {
    hide Step;
    if b == [] {
      assert a + b == a;
    } else {
      var c, e := b[..|b| - 1], b[|b| - 1];
      assert (a + b)[..|a + b| - 1] == a + c;
      RunAppend(s, a, c);
      var t := Run(s, a);
      assert t.verdicts + (Run(t.store, c).verdicts + [Step(Run(t.store, c).store, e).verdict])
          == (t.verdicts + Run(t.store, c).verdicts) + [Step(Run(t.store, c).store, e).verdict];
    }
  }

  lemma {:induction false} RunPrefix(s: Store, es: seq<Event>, k: nat)
    requires k <= |es|
    ensures Run(s, es[..k]).verdicts == Run(s, es).verdicts[..k]
  {
    hide Step;
    RunAppend(s, es[..k], es[k..]);
    assert es[..k] + es[k..] == es;
  }
}
