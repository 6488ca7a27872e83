/** The manual agent bridge as a function on the event store
    (src/codememory/agent_bridge.py, ingest/redaction.py). */
module Bridge {
  import opened Base
  import opened Events
  import opened Ingest
  import opened IngestTheorems
  import opened Repository
  import opened Replay

  /******* Redaction *******/

  /** Redaction works entry by entry: the new value of a key, and whether it is
      recorded as redacted; an entry not recorded is not changed. */
  datatype Redactor = Redactor(value: (string, string) -> string, flags: (string, string) -> bool) {
    ghost predicate Lawful() {
      forall k, v :: !flags(k, v) ==> value(k, v) == v
    }
  }

  function Each(r: Redactor, m: map<string, string>): map<string, string> {
    map k | k in m :: r.value(k, m[k])
  }

  function Flagged(r: Redactor, m: map<string, string>, prefix: string): set<string> {
    set k | k in m && r.flags(k, m[k]) :: prefix + k
  }

  function Redact(r: Redactor, e: Event): Event {
    e.(context := Each(r, e.context), payload := Each(r, e.payload),
       redaction := e.redaction + Flagged(r, e.context, "context.") + Flagged(r, e.payload, "payload."))
  }

  /******* Requests *******/

  const SCHEMA := "codememory.agent_bridge.v1"

  /** One event of a capture: its type, its own payload keys, and its id suffix. */
  datatype Part = Part(kind: EventType, payload: map<string, string>, suffix: string)

  datatype CaptureRequest = CaptureRequest(
    project: string, task: string, session: string, captureId: string, intent: string,
    explored: seq<string>, modified: seq<string>, symbols: seq<string>, validations: seq<map<string, string>>,
    rejected: seq<string>, summary: string, outcome: string, context: map<string, string>, rest: string)

  /** A list as one text: every value behind its length. */
  function Listed(values: seq<string>): string {
    if values == [] then "" else Decimal(|values[0]|) + ":" + values[0] + Listed(values[1..])
  }

  function Files(paths: seq<string>, kind: EventType, role: string, suffix: string): seq<Part> {
    seq(|paths|, i requires 0 <= i < |paths| =>
      Part(kind, map["path" := paths[i], "role" := role], suffix + Decimal(i)))
  }

  function Opening(q: CaptureRequest): seq<Part> {
    if q.intent != "" then [Part(UserMessage, map["text" := q.intent], "intent")] else []
  }

  function SymbolParts(q: CaptureRequest): seq<Part> {
    if q.symbols != [] || q.rejected != []
    then [Part(ToolResult, map["symbols" := Listed(q.symbols), "rejected_candidates" := Listed(q.rejected)], "symbols")]
    else []
  }

  function Validations(q: CaptureRequest): seq<Part> {
    seq(|q.validations|, i requires 0 <= i < |q.validations| =>
      Part(ValidationRun, q.validations[i], "validation-" + Decimal(i)))
  }

  function Closing(q: CaptureRequest): seq<Part> {
    if q.summary != "" || q.outcome != "partial"
    then [Part(AssistantMessage, map["text" := q.summary, "outcome" := q.outcome], "summary")]
    else []
  }

  /** The events a capture adds, in the order it adds them. */
  function Parts(q: CaptureRequest): seq<Part> {
    Opening(q) + Files(q.explored, FileRead, "explored", "read-") + Files(q.modified, FileEdit, "modified", "edit-")
    + SymbolParts(q) + Validations(q) + Closing(q)
  }

  /** The identity function of the bridge and its redactor. */
  datatype Settings = Settings(eventId: (string, string) -> string, redactor: Redactor)

  /** Where a capture starts: from the end of the timeline, or from its own first event. */
  datatype Start = Start(seqNo: nat, parent: Option<string>, context: map<string, string>, time: int)

  function OrElse(m: map<string, string>, key: string, default: string): string {
    if key in m && m[key] != "" then m[key] else default
  }

  /** The payload of a part; a validation may override both bridge keys. */
  function FullPayload(q: CaptureRequest, part: Part): map<string, string> {
    map["bridge_schema_version" := SCHEMA, "capture_id" := q.captureId] + part.payload
  }

  function PartId(b: Settings, q: CaptureRequest, part: Part): string {
    b.eventId(q.session, q.captureId + "-" + part.suffix)
  }

  function PartEvent(b: Settings, q: CaptureRequest, part: Part, at: Start, seqNo: nat, parent: Option<string>): Event {
    Event(PartId(b, q, part), Some(PartId(b, q, part)), part.kind, at.time,
          OrElse(q.context, "agent_id", "codex"), OrElse(q.context, "adapter", "manual-skill"),
          q.project, q.task, Some(q.session), seqNo, parent, at.context + q.context, FullPayload(q, part), {}, q.rest)
  }

  function RawEvent(b: Settings, q: CaptureRequest, at: Start, i: nat): Event
    requires i < |Parts(q)|
  {
    var parent := if i == 0 then at.parent else Some(PartId(b, q, Parts(q)[i - 1]));
    PartEvent(b, q, Parts(q)[i], at, at.seqNo + i, parent)
  }

  /** The events of a capture before redaction: numbered on, each after the one before. */
  function Raw(b: Settings, q: CaptureRequest, at: Start): seq<Event> {
    seq(|Parts(q)|, i requires 0 <= i < |Parts(q)| => RawEvent(b, q, at, i))
  }

  /******* Reading the timeline *******/

  function SessionIds(s: Store, task: string, session: string): set<string> {
    set id | id in s.events && s.events[id].task == task && s.events[id].session == Some(session)
  }

  /** The 5000 lowest sequence numbers of a task's session. */
  function Timeline(s: Store, task: string, session: string): set<string> {
    set id | id in SessionIds(s, task, session)
             && |set o | o in SessionIds(s, task, session) && s.events[o].seqNo < s.events[id].seqNo| < 5000
  }

  predicate Highest(s: Store, ids: set<string>, id: string) {
    ids <= s.events.Keys && id in ids && forall o :: o in ids ==> s.events[o].seqNo <= s.events[id].seqNo
  }

  predicate Lowest(s: Store, ids: set<string>, id: string) {
    ids <= s.events.Keys && id in ids && forall o :: o in ids ==> s.events[id].seqNo <= s.events[o].seqNo
  }

  lemma {:induction false} HighestExists(s: Store, ids: set<string>) returns (id: string)
    requires ids != {} && ids <= s.events.Keys
    ensures Highest(s, ids, id)
    decreases |ids|
  {
    id :| id in ids;
    if ids != {id} {
      assert |ids - {id}| < |ids|;
      var best := HighestExists(s, ids - {id});
      if s.events[id].seqNo < s.events[best].seqNo {
        id := best;
      }
    }
  }

  lemma {:induction false} LowestExists(s: Store, ids: set<string>) returns (id: string)
    requires ids != {} && ids <= s.events.Keys
    ensures Lowest(s, ids, id)
    decreases |ids|
  {
    id :| id in ids;
    if ids != {id} {
      assert |ids - {id}| < |ids|;
      var best := LowestExists(s, ids - {id});
      if s.events[best].seqNo < s.events[id].seqNo {
        id := best;
      }
    }
  }

  ghost function Last(s: Store, ids: set<string>): string
    requires ids != {} && ids <= s.events.Keys
    ensures Highest(s, ids, Last(s, ids))
  {
    assert exists id :: Highest(s, ids, id) by { var id := HighestExists(s, ids); }
    var id :| Highest(s, ids, id); id
  }

  ghost function First(s: Store, ids: set<string>): string
    requires ids != {} && ids <= s.events.Keys
    ensures Lowest(s, ids, First(s, ids))
  {
    assert exists id :: Lowest(s, ids, id) by { var id := LowestExists(s, ids); }
    var id :| Lowest(s, ids, id); id
  }

  ghost function Next(s: Store, task: string, session: string, time: int): Start {
    var line := Timeline(s, task, session);
    if line == {} then Start(0, None, map[], time)
    else
      var last := s.events[Last(s, line)];
      Start(last.seqNo + 1, Some(last.id), last.context, time)
  }

  /** The timeline events filed under a capture id. */
  function Filed(s: Store, q: CaptureRequest): set<string> {
    set id | id in Timeline(s, q.task, q.session) && Lookup(s.events[id].payload, "capture_id") == Some(q.captureId)
  }

  /** `time` is the requested capture time, or the clock. */
  ghost function StartOf(s: Store, q: CaptureRequest, time: int): Start {
    if Filed(s, q) == {} then Next(s, q.task, q.session, time)
    else
      var first := s.events[First(s, Filed(s, q))];
      Start(first.seqNo, first.parent, first.context, first.occurredAt)
  }

  /******* Idempotent writes *******/

  /** What a retry is compared on: everything but the redaction record and the time. */
  function Comparable(e: Event): Event { e.(occurredAt := 0, redaction := {}) }

  /** `_idempotent`: a new event redacted, the stored one when it says the same, or
      nothing when its id was used for other content. */
  function Prepare(s: Store, b: Settings, e: Event): Option<Event> {
    if e.id !in s.events then Some(Redact(b.redactor, e))
    else
      var x := s.events[e.id];
      if Comparable(Redact(b.redactor, e.(occurredAt := x.occurredAt))) == Comparable(x) then Some(x) else None
  }

  function PrepareAll(s: Store, b: Settings, es: seq<Event>): Option<seq<Event>>
    decreases |es|
  {
    if es == [] then Some([])
    else
      var before := PrepareAll(s, b, es[..|es| - 1]);
      var last := Prepare(s, b, es[|es| - 1]);
      if before.None? || last.None? then None else Some(before.value + [last.value])
  }

  function IdsOf(es: seq<Event>): set<string> { set e | e in es :: e.id }

  /** `Refused` is a ConflictError, `Broken` any other constraint error. */
  datatype Reply = Refused | Broken | Written(verdicts: seq<Verdict>)

  datatype Answer = Answer(store: Store, reply: Reply)

  function RedactAll(b: Settings, es: seq<Event>): seq<Event> {
    seq(|es|, i requires 0 <= i < |es| => Redact(b.redactor, es[i]))
  }

  /** The ingest boundary redacts once more and commits all or nothing. */
  ghost function Write(s: Store, b: Settings, es: seq<Event>): Answer {
    var t := Run(s, RedactAll(b, es));
    match FirstRejected(t.verdicts)
    case None => Answer(t.store, Written(t.verdicts))
    case Some(v) => Answer(s, if v.Fault? then Broken else Refused)
  }

  ghost function Capture(s: Store, b: Settings, q: CaptureRequest, time: int): Answer {
    var raw := Raw(b, q, StartOf(s, q, time));
    var prepared := PrepareAll(s, b, raw);
    if prepared.None? then Answer(s, Refused)
    else if Filed(s, q) != {} && IdsOf(prepared.value) != Filed(s, q) then Answer(s, Refused)
    else Write(s, b, prepared.value)
  }

  /** `start` and `finish` write one event each. */
  ghost function WriteOne(s: Store, b: Settings, e: Event): Answer {
    var prepared := Prepare(s, b, e);
    if prepared.None? then Answer(s, Refused) else Write(s, b, [prepared.value])
  }

  datatype EdgeRequest = EdgeRequest(project: string, task: string, session: string, agent: string, adapter: string,
                                     context: map<string, string>, payload: map<string, string>, time: int,
                                     rest: string)

  function EdgeEvent(b: Settings, q: EdgeRequest, kind: EventType, suffix: string, at: Start): Event {
    var id := b.eventId(q.session, suffix);
    Event(id, Some(id), kind, at.time, q.agent, q.adapter, q.project, q.task, Some(q.session), at.seqNo, at.parent,
          at.context + q.context, map["bridge_schema_version" := SCHEMA] + q.payload, {}, q.rest)
  }

  ghost function Begin(s: Store, b: Settings, q: EdgeRequest): Answer {
    WriteOne(s, b, EdgeEvent(b, q, SessionStarted, "started", Start(0, None, map[], q.time)))
  }

  ghost function FinishStart(s: Store, b: Settings, q: EdgeRequest): Start {
    var id := b.eventId(q.session, "finished");
    if id in s.events
    then Start(s.events[id].seqNo, s.events[id].parent, s.events[id].context, s.events[id].occurredAt)
    else Next(s, q.task, q.session, q.time)
  }

  ghost function Finish(s: Store, b: Settings, q: EdgeRequest): Answer {
    WriteOne(s, b, EdgeEvent(b, q, SessionEnded, "finished", FinishStart(s, b, q)))
  }
}
