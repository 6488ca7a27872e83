/** Repeating a capture, a start or a finish: exactly when it is a no-op. */
module BridgeRetries {
  import opened Base
  import opened Events
  import opened Ingest
  import opened IngestTheorems
  import opened Repository
  import opened Bridge
  import opened BridgeTheorems

  /******* When redaction has settled *******/

  /** A second redaction changes no entry the first one changed. */
  predicate Settles(r: Redactor, m: map<string, string>) {
    forall k :: k in m ==> r.value(k, r.value(k, m[k])) == r.value(k, m[k])
  }

  /** A third redaction changes nothing in the entries that `over` does not replace. */
  predicate SettlesLate(r: Redactor, m: map<string, string>, over: map<string, string>) {
    forall k :: k in m && k !in over ==>
      var v := r.value(k, r.value(k, m[k])); r.value(k, v) == v
  }

  /** The entries a request adds survive two redactions as after one, those it
      inherits three as after two. */
  predicate Stable(r: Redactor, payload: map<string, string>, inherited: map<string, string>,
                   own: map<string, string>) {
    Settles(r, payload) && Settles(r, own) && SettlesLate(r, inherited, own)
  }

  lemma EachTwice(r: Redactor, m: map<string, string>)
    ensures Settles(r, m) <==> Each(r, m) == Each(r, Each(r, m))
  {
    var once := Each(r, m);
    var twice := Each(r, once);
    assert forall k :: k in m ==> once[k] == r.value(k, m[k]) && twice[k] == r.value(k, once[k]);
    if once == twice {
      assert forall k :: k in m ==> once[k] == twice[k];
    }
  }

  /** What a retry computes from a stored context. */
  lemma ContextAgain(r: Redactor, inherited: map<string, string>, own: map<string, string>)
    ensures var stored := Each(r, Each(r, inherited + own));
            Each(r, stored + own) == stored <==> Settles(r, own) && SettlesLate(r, inherited, own)
  {
    var c := inherited + own;
    var stored := Each(r, Each(r, c));
    var again := Each(r, stored + own);
    assert again.Keys == stored.Keys == c.Keys;
    assert forall k :: k in c ==> stored[k] == r.value(k, r.value(k, c[k]));
    assert forall k :: k in own ==> again[k] == r.value(k, own[k]) && c[k] == own[k];
    assert forall k :: k in c && k !in own ==> again[k] == r.value(k, stored[k]) && c[k] == inherited[k];
    if again == stored {
      assert forall k :: k in c ==> again[k] == stored[k];
      assert forall k :: k in own ==> k in c;
      assert forall k :: k in inherited ==> k in c;
    }
  }

  /** A settled map is not changed by a third redaction. */
  lemma ThirdTime(r: Redactor, inherited: map<string, string>, own: map<string, string>)
    requires Settles(r, own) && SettlesLate(r, inherited, own)
    ensures var stored := Each(r, Each(r, inherited + own));
            Each(r, stored) == stored
  {
    var c := inherited + own;
    var stored := Each(r, Each(r, c));
    forall k | k in stored ensures Each(r, stored)[k] == stored[k] {
      assert stored[k] == r.value(k, r.value(k, c[k]));
      if k in own {
        assert c[k] == own[k];
      } else {
        assert c[k] == inherited[k];
      }
    }
  }

  /** What a third redaction would record is recorded already. */
  lemma FlagsSettled(r: Redactor, m: map<string, string>, prefix: string)
    requires r.Lawful() && Each(r, Each(r, Each(r, m))) == Each(r, Each(r, m))
    ensures Flagged(r, Each(r, Each(r, m)), prefix) <= Flagged(r, m, prefix) + Flagged(r, Each(r, m), prefix)
  {
    var once := Each(r, m);
    var twice := Each(r, once);
    forall x | x in Flagged(r, twice, prefix) ensures x in Flagged(r, m, prefix) + Flagged(r, once, prefix) {
      var k :| k in twice && r.flags(k, twice[k]) && prefix + k == x;
      assert once[k] == r.value(k, m[k]) && twice[k] == r.value(k, once[k]);
      assert r.value(k, once[k]) == once[k] || r.flags(k, once[k]);
    }
  }

  /******* One event repeated *******/

  /** `again` is `raw` rebuilt by a retry: the stored context and time instead of
      those the first call started from. */
  predicate Rebuilt(raw: Event, stored: Event, own: map<string, string>, again: Event) {
    again == raw.(context := stored.context + own, occurredAt := again.occurredAt)
  }

  lemma RedactedFields(b: Settings, raw: Event)
    ensures var x := Redact(b.redactor, Redact(b.redactor, raw));
            && x == raw.(context := Each(b.redactor, Each(b.redactor, raw.context)),
                         payload := Each(b.redactor, Each(b.redactor, raw.payload)),
                         redaction := x.redaction)
            && x.redaction >= Flagged(b.redactor, raw.context, "context.")
                              + Flagged(b.redactor, Each(b.redactor, raw.context), "context.")
            && x.redaction >= Flagged(b.redactor, raw.payload, "payload.")
                              + Flagged(b.redactor, Each(b.redactor, raw.payload), "payload.")
  {
    hide Each, Flagged;
  }

  /** A repeated event is taken for the stored one exactly when redaction has settled. */
  lemma RetryPrepared(s: Store, b: Settings, raw: Event, inherited: map<string, string>, own: map<string, string>,
                      again: Event)
    requires raw.id in s.events && s.events[raw.id] == Redact(b.redactor, Redact(b.redactor, raw))
    requires raw.context == inherited + own && Rebuilt(raw, s.events[raw.id], own, again)
    ensures Prepare(s, b, again).Some? <==> Stable(b.redactor, raw.payload, inherited, own)
    ensures Prepare(s, b, again).Some? ==> Prepare(s, b, again).value == s.events[raw.id]
  {
    hide Each, Flagged, Settles, SettlesLate;
    var x := s.events[raw.id];
    var r := b.redactor;
    RedactedFields(b, raw);
    EachTwice(r, raw.payload);
    ContextAgain(r, inherited, own);
    var y := Redact(r, again.(occurredAt := x.occurredAt));
    assert y == raw.(occurredAt := x.occurredAt, context := Each(r, x.context + own), payload := Each(r, raw.payload),
                     redaction := y.redaction);
    assert Comparable(y).payload == y.payload && Comparable(x).payload == x.payload;
    assert Comparable(y).context == y.context && Comparable(x).context == x.context;
    assert Comparable(y) == Comparable(x) <==> y.payload == x.payload && y.context == x.context;
  }

  /** A settled stored event passes the ingest boundary unchanged. */
  lemma StoredSettled(b: Settings, raw: Event, inherited: map<string, string>, own: map<string, string>)
    requires b.redactor.Lawful() && raw.context == inherited + own && Stable(b.redactor, raw.payload, inherited, own)
    ensures var x := Redact(b.redactor, Redact(b.redactor, raw));
            Redact(b.redactor, x) == x
  {
    hide Each, Flagged, Settles, SettlesLate;
    var r := b.redactor;
    RedactedFields(b, raw);
    ThirdTime(r, inherited, own);
    EachTwice(r, raw.payload);
    FlagsSettled(r, raw.context, "context.");
    FlagsSettled(r, raw.payload, "payload.");
    var x := Redact(r, Redact(r, raw));
    assert Redact(r, x).redaction == x.redaction;
  }

  /** A single event written once and repeated after any other traffic: `start` and
      `finish`. */
  lemma RetryOne(t: Store, b: Settings, raw: Event, inherited: map<string, string>, own: map<string, string>,
                 again: Event)
    requires b.redactor.Lawful()
    requires raw.id in t.events && t.events[raw.id] == Redact(b.redactor, Redact(b.redactor, raw))
    requires raw.context == inherited + own && Rebuilt(raw, t.events[raw.id], own, again)
    ensures WriteOne(t, b, again) ==
            Answer(t, if Stable(b.redactor, raw.payload, inherited, own) then Written([Duplicate(raw.id)]) else Refused)
  {
    hide Redact, Step, Stable, Rebuilt;
    RetryPrepared(t, b, raw, inherited, own, again);
    if Stable(b.redactor, raw.payload, inherited, own) {
      var x := t.events[raw.id];
      StoredSettled(b, raw, inherited, own);
      assert x.id == raw.id by { RedactedFields(b, raw); }
      SettledWrite(t, b, [x]);
      assert [Duplicate(raw.id)] == Duplicates([x]);
    }
  }

  function Duplicates(es: seq<Event>): seq<Verdict> {
    seq(|es|, i requires 0 <= i < |es| => Duplicate(es[i].id))
  }

  /** Stored events that redaction leaves alone are all duplicates. */
  lemma SettledWrite(s: Store, b: Settings, es: seq<Event>)
    requires forall e :: e in es ==> e.id in s.events && s.events[e.id] == e && Redact(b.redactor, e) == e
    ensures Write(s, b, es) == Answer(s, Written(Duplicates(es)))
  {
    hide Step, Run, Redact;
    assert forall i :: 0 <= i < |es| ==> es[i] in es;
    assert RedactAll(b, es) == es;
    RunStored(s, es);
    assert forall v :: v in Duplicates(es) ==> !v.Rejected();
  }

  lemma {:induction false} RunStored(s: Store, es: seq<Event>)
    requires forall e :: e in es ==> e.id in s.events && s.events[e.id] == e
    ensures Run(s, es) == Trace(s, Duplicates(es))
    decreases |es|
  {
    hide Step;
    if es != [] {
      var e := es[|es| - 1];
      RunStored(s, es[..|es| - 1]);
      assert e in es;
      KnownStep(s, e);
      assert Duplicates(es) == Duplicates(es[..|es| - 1]) + [Duplicate(e.id)];
    } else {
      assert Duplicates(es) == [];
    }
  }

  /******* A whole capture repeated *******/

  /** The i-th event of a capture is stored as the first call recorded it. */
  predicate Recorded(t: Store, b: Settings, q: CaptureRequest, at: Start, i: nat)
    requires i < |Parts(q)|
  {
    var raw := RawEvent(b, q, at, i);
    raw.id in t.events && t.events[raw.id] == Redact(b.redactor, Redact(b.redactor, raw))
  }

  /** A wholly accepted stream was new and is stored. */
  lemma AcceptedStored(s: Store, es: seq<Event>, i: nat)
    requires Inv(s) && i < |es| && forall v :: v in Run(s, es).verdicts ==> v.Accepted?
    ensures es[i].id !in s.events && Stored(Run(s, es).store, es[i])
  {
    hide Step, Inv, Grows, Stored;
    var t := Run(s, es[..i]).store;
    RunAt(s, es, [], i);
    assert Run(s, es).verdicts[i] in Run(s, es).verdicts;
    RunInv(s, es[..i]);
    RunGrows(s, es[..i]);
    var u := Step(t, es[i]).store;
    VerdictExact(t, es[i]);
    StepInv(t, es[i]);
    RunGrows(u, es[i + 1..] + []);
    BarredForever(u, Run(u, es[i + 1..] + []).store, es[i]);
    assert Run(s, es).store == Run(u, es[i + 1..] + []).store;
    NewThen(s, t, es[i]);
  }

  lemma NewThen(s: Store, t: Store, e: Event)
    requires Grows(s, t) && Step(t, e).verdict.Accepted?
    ensures e.id !in s.events
  {
    hide TouchSession;
    assert e.id !in t.events;
  }

  lemma FirstCapture(s: Store, b: Settings, q: CaptureRequest, time: int, i: nat)
    requires Inv(s) && i < |Parts(q)| && Capture(s, b, q, time).reply.Written?
    requires forall v :: v in Capture(s, b, q, time).reply.verdicts ==> v.Accepted?
    ensures Recorded(Capture(s, b, q, time).store, b, q, StartOf(s, q, time), i)
    ensures PartId(b, q, Parts(q)[i]) !in s.events
  {
    hide Inv, Run, PrepareAll, Raw, RawEvent, Parts, StartOf, Filed, IdsOf, Redact, Write, Stored;
    var raw := Raw(b, q, StartOf(s, q, time));
    var p := PrepareAll(s, b, raw).value;
    WriteCases(s, b, p);
    RawSize(b, q, StartOf(s, q, time));
    RawAt(b, q, StartOf(s, q, time), i);
    PrepareAllAt(s, b, raw);
    PrepareSays(s, b, raw[i]);
    var written := RedactAll(b, p);
    AcceptedStored(s, written, i);
    assert written[i].id == raw[i].id by { RedactKeepsId(b, p[i]); }
    assert p[i] == Redact(b.redactor, raw[i]);
    RedactKeepsId(b, Redact(b.redactor, raw[i]));
    RedactKeepsId(b, raw[i]);
    assert Stored(Capture(s, b, q, time).store, written[i]);
    StoredIs(Capture(s, b, q, time).store, written[i]);
  }

  lemma StoredIs(t: Store, e: Event)
    requires Stored(t, e)
    ensures e.id in t.events && t.events[e.id] == e
  {
  }

  lemma RedactKeepsId(b: Settings, e: Event)
    ensures Redact(b.redactor, e).id == e.id
  {
  }

  /******* What a capture leaves in the store *******/

  /** The redactor at the bridge, and again at ingest. */
  function Twice(r: Redactor, k: string, v: string): string { r.value(k, r.value(k, v)) }

  /** `e` is an event of the request's own session with this type, capture id and redacted payload. */
  ghost predicate Holds(t: Store, b: Settings, q: CaptureRequest, part: Part, e: Event) {
    && e.id in t.events && t.events[e.id] == e && e.kind == part.kind
    && e.project == q.project && e.task == q.task && e.session == Some(q.session)
    && e.rest == q.rest && PayloadHeld(b, q, part, e) && ContextHeld(b, q, e)
  }

  ghost predicate PayloadHeld(b: Settings, q: CaptureRequest, part: Part, e: Event) {
    && (forall k :: k in part.payload ==> k in e.payload && e.payload[k] == Twice(b.redactor, k, part.payload[k]))
    && ("capture_id" !in part.payload ==>
          "capture_id" in e.payload && e.payload["capture_id"] == Twice(b.redactor, "capture_id", q.captureId))
    && ("bridge_schema_version" !in part.payload ==>
          "bridge_schema_version" in e.payload
          && e.payload["bridge_schema_version"] == Twice(b.redactor, "bridge_schema_version", SCHEMA))
    && e.payload.Keys == part.payload.Keys + {"bridge_schema_version", "capture_id"}
  }

  ghost predicate ContextHeld(b: Settings, q: CaptureRequest, e: Event) {
    && Produced(q.context, e)
    && (forall k :: k in q.context ==> k in e.context && e.context[k] == Twice(b.redactor, k, q.context[k]))
  }

  /** The agent and adapter the context names, or else those of a manual capture. */
  predicate Produced(context: map<string, string>, e: Event) {
    && e.agent == (if "agent_id" in context && context["agent_id"] != "" then context["agent_id"] else "codex")
    && e.adapter == (if "adapter" in context && context["adapter"] != "" then context["adapter"] else "manual-skill")
  }

  lemma PartHeld(s: Store, b: Settings, q: CaptureRequest, time: int, i: nat) returns (e: Event)
    requires Inv(s) && i < |Parts(q)| && Capture(s, b, q, time).reply.Written?
    requires forall v :: v in Capture(s, b, q, time).reply.verdicts ==> v.Accepted?
    ensures Holds(Capture(s, b, q, time).store, b, q, Parts(q)[i], e) && e.id == PartId(b, q, Parts(q)[i])
  {
    hide Inv, Parts, PartId, StartOf, Capture, RawEvent, Redact, Holds, Recorded;
    FirstCapture(s, b, q, time, i);
    RecordedHolds(Capture(s, b, q, time).store, b, q, StartOf(s, q, time), i);
    e := Redact(b.redactor, Redact(b.redactor, RawEvent(b, q, StartOf(s, q, time), i)));
    RawEventId(b, q, StartOf(s, q, time), i);
    RedactKeepsId(b, RawEvent(b, q, StartOf(s, q, time), i));
    RedactKeepsId(b, Redact(b.redactor, RawEvent(b, q, StartOf(s, q, time), i)));
  }

  lemma RecordedHolds(t: Store, b: Settings, q: CaptureRequest, at: Start, i: nat)
    requires i < |Parts(q)| && Recorded(t, b, q, at, i)
    ensures Holds(t, b, q, Parts(q)[i], Redact(b.redactor, Redact(b.redactor, RawEvent(b, q, at, i))))
  {
    hide Parts, PartId, Flagged, Each, PayloadHeld, ContextHeld, FullPayload, OrElse;
    RedactedFields(b, RawEvent(b, q, at, i));
    HeldFields(b, q, at, i);
  }

  lemma HeldFields(b: Settings, q: CaptureRequest, at: Start, i: nat)
    requires i < |Parts(q)|
    ensures var e := Redact(b.redactor, Redact(b.redactor, RawEvent(b, q, at, i)));
            PayloadHeld(b, q, Parts(q)[i], e) && ContextHeld(b, q, e)
  {
    hide Parts, PartId, Flagged, Each, FullPayload, OrElse, PayloadHeld, ContextHeld;
    var raw := RawEvent(b, q, at, i);
    var e := Redact(b.redactor, Redact(b.redactor, raw));
    RedactedFields(b, raw);
    PayloadTwice(b, q, Parts(q)[i], e);
    ContextTwice(b, q, at.context, e);
  }

  lemma PayloadTwice(b: Settings, q: CaptureRequest, part: Part, e: Event)
    requires e.payload == Each(b.redactor, Each(b.redactor, FullPayload(q, part)))
    ensures PayloadHeld(b, q, part, e)
  {
    hide Each;
    EachTwiceAt(b.redactor, FullPayload(q, part));
  }

  lemma ContextTwice(b: Settings, q: CaptureRequest, inherited: map<string, string>, e: Event)
    requires e.context == Each(b.redactor, Each(b.redactor, inherited + q.context))
    requires e.agent == OrElse(q.context, "agent_id", "codex")
        && e.adapter == OrElse(q.context, "adapter", "manual-skill")
    ensures ContextHeld(b, q, e)
  {
    hide Each;
    EachTwiceAt(b.redactor, inherited + q.context);
  }

  lemma EachTwiceAt(r: Redactor, m: map<string, string>)
    ensures Each(r, Each(r, m)).Keys == m.Keys && forall k :: k in m ==> Each(r, Each(r, m))[k] == Twice(r, k, m[k])
  {
  }

  /** The event a first start or finish leaves: its request's fields, redacted. */
  lemma EdgeHeld(s: Store, b: Settings, q: EdgeRequest, kind: EventType, suffix: string, at: Start)
    requires Inv(s) && WriteOne(s, b, EdgeEvent(b, q, kind, suffix, at)).reply == Written([Accepted])
    ensures var t := WriteOne(s, b, EdgeEvent(b, q, kind, suffix, at)).store;
            var id := b.eventId(q.session, suffix);
            && id in t.events
            && var e := t.events[id];
               && e.id == id && e.externalId == Some(id) && e.kind == kind && e.agent == q.agent
                  && e.adapter == q.adapter
               && e.project == q.project && e.task == q.task && e.session == Some(q.session) && e.rest == q.rest
               && e.seqNo == at.seqNo && e.parent == at.parent && e.occurredAt == at.time
               && (forall k :: k in q.context ==> k in e.context && e.context[k] == Twice(b.redactor, k, q.context[k]))
               && (forall k :: k in q.payload ==> k in e.payload && e.payload[k] == Twice(b.redactor, k, q.payload[k]))
               && e.payload.Keys == q.payload.Keys + {"bridge_schema_version"}
  {
    hide Inv, WriteOne, Each, Flagged, Grows, Redact;
    var raw := EdgeEvent(b, q, kind, suffix, at);
    var t := WriteOne(s, b, raw).store;
    GrowsReflexive(t);
    WrittenOnce(s, b, raw, t);
    RedactedFields(b, raw);
    EachTwiceAt(b.redactor, raw.payload);
    EachTwiceAt(b.redactor, raw.context);
  }

  ghost predicate Remembered(t: Store, b: Settings, q: CaptureRequest, part: Part) {
    exists e :: Holds(t, b, q, part, e)
  }

  /** What a first capture leaves in the store, up to redaction: the intent as a user message,
      every file with its role, the symbols and rejected candidates, every validation, and the
      summary with the outcome. */
  lemma CaptureRemembers(s: Store, b: Settings, q: CaptureRequest, time: int)
    requires Inv(s) && Capture(s, b, q, time).reply.Written?
    requires forall v :: v in Capture(s, b, q, time).reply.verdicts ==> v.Accepted?
    ensures var t := Capture(s, b, q, time).store;
            && (q.intent != "" ==> Remembered(t, b, q, Part(UserMessage, map["text" := q.intent], "intent")))
            && (forall i :: 0 <= i < |q.explored| ==>
                  Remembered(t, b, q, Part(FileRead, map["path" := q.explored[i], "role" := "explored"],
                                           "read-" + Decimal(i))))
            && (forall i :: 0 <= i < |q.modified| ==>
                  Remembered(t, b, q, Part(FileEdit, map["path" := q.modified[i], "role" := "modified"],
                                           "edit-" + Decimal(i))))
            && (q.symbols != [] || q.rejected != [] ==>
                  Remembered(t, b, q, Part(ToolResult, map["symbols" := Listed(q.symbols),
                                                           "rejected_candidates" := Listed(q.rejected)], "symbols")))
            && (forall i :: 0 <= i < |q.validations| ==>
                  Remembered(t, b, q, Part(ValidationRun, q.validations[i], "validation-" + Decimal(i))))
            && (q.summary != "" || q.outcome != "partial" ==>
                  Remembered(t, b, q, Part(AssistantMessage, map["text" := q.summary, "outcome" := q.outcome],
                    "summary")))
  {
    hide Inv, Parts, PartId, Capture, Holds;
    forall part | part in Parts(q) ensures Remembered(Capture(s, b, q, time).store, b, q, part) {
      var i :| 0 <= i < |Parts(q)| && Parts(q)[i] == part;
      var e := PartHeld(s, b, q, time, i);
    }
    hide Remembered, Listed, Decimal;
    AllRemembered(Capture(s, b, q, time).store, b, q);
  }

  lemma AllRemembered(t: Store, b: Settings, q: CaptureRequest)
    requires forall part :: part in Parts(q) ==> Remembered(t, b, q, part)
    ensures q.intent != "" ==> Remembered(t, b, q, Part(UserMessage, map["text" := q.intent], "intent"))
    ensures forall i :: 0 <= i < |q.explored| ==>
              Remembered(t, b, q, Part(FileRead, map["path" := q.explored[i], "role" := "explored"],
                "read-" + Decimal(i)))
    ensures forall i :: 0 <= i < |q.modified| ==>
              Remembered(t, b, q, Part(FileEdit, map["path" := q.modified[i], "role" := "modified"],
                "edit-" + Decimal(i)))
    ensures q.symbols != [] || q.rejected != [] ==>
              Remembered(t, b, q, Part(ToolResult, map["symbols" := Listed(q.symbols),
                                                       "rejected_candidates" := Listed(q.rejected)], "symbols"))
    ensures forall i :: 0 <= i < |q.validations| ==>
              Remembered(t, b, q, Part(ValidationRun, q.validations[i], "validation-" + Decimal(i)))
    ensures q.summary != "" || q.outcome != "partial" ==>
              Remembered(t, b, q, Part(AssistantMessage, map["text" := q.summary, "outcome" := q.outcome], "summary"))
  {
    hide Remembered, Parts, Listed, Decimal, OfKind;
    CaptureReadBack(q);
    KindRemembered(t, b, q, UserMessage);
    KindRemembered(t, b, q, FileRead);
    KindRemembered(t, b, q, FileEdit);
    KindRemembered(t, b, q, ToolResult);
    KindRemembered(t, b, q, ValidationRun);
    KindRemembered(t, b, q, AssistantMessage);
    var said, told, closed := OfKind(Parts(q), UserMessage), OfKind(Parts(q), ToolResult),
      OfKind(Parts(q), AssistantMessage);
    assert (said != [] ==> Remembered(t, b, q, said[0])) && (told != [] ==> Remembered(t, b, q, told[0]));
    assert closed != [] ==> Remembered(t, b, q, closed[0]);
  }

  lemma KindRemembered(t: Store, b: Settings, q: CaptureRequest, kind: EventType)
    requires forall part :: part in Parts(q) ==> Remembered(t, b, q, part)
    ensures var parts := OfKind(Parts(q), kind);
            forall i :: 0 <= i < |parts| ==> Remembered(t, b, q, parts[i])
  {
    hide Remembered, Parts, OfKind;
    var parts := OfKind(Parts(q), kind);
    forall i | 0 <= i < |parts| ensures Remembered(t, b, q, parts[i]) {
      OfKindIn(Parts(q), kind, parts[i]);
    }
  }

  function Repeats(b: Settings, q: CaptureRequest): seq<Verdict> {
    seq(|Parts(q)|, i requires 0 <= i < |Parts(q)| => Duplicate(PartId(b, q, Parts(q)[i])))
  }

  lemma RecordedFields(t: Store, b: Settings, q: CaptureRequest, at: Start, i: nat)
    requires i < |Parts(q)| && Recorded(t, b, q, at, i)
    ensures var id := PartId(b, q, Parts(q)[i]);
            && id in t.events && t.events[id].id == id && t.events[id].seqNo == at.seqNo + i
            && t.events[id].task == q.task && t.events[id].session == Some(q.session)
            && t.events[id].context == Each(b.redactor, Each(b.redactor, at.context + q.context))
            && (i == 0 ==> t.events[id].parent == at.parent)
  {
    hide Parts, PartId, FullPayload, OrElse, Each, Flagged;
    RedactedFields(b, RawEvent(b, q, at, i));
  }

  /** With every event filed, a retry starts where the first call did. */
  lemma SameStart(t: Store, b: Settings, q: CaptureRequest, at: Start, time: int)
    requires Parts(q) != [] && Filed(t, q) == PartIds(b, q)
    requires forall i :: 0 <= i < |Parts(q)| ==> Recorded(t, b, q, at, i)
    ensures var again := StartOf(t, q, time);
            && again.seqNo == at.seqNo && again.parent == at.parent
            && again.context == Each(b.redactor, Each(b.redactor, at.context + q.context))
  {
    hide Parts, PartId, Recorded, Timeline, Each;
    var first := PartId(b, q, Parts(q)[0]);
    assert Parts(q)[0] in Parts(q);
    assert first in PartIds(b, q);
    RecordedFields(t, b, q, at, 0);
    FiledStored(t, q);
    var id := First(t, Filed(t, q));
    assert id in PartIds(b, q);
    var part :| part in Parts(q) && PartId(b, q, part) == id;
    var j :| 0 <= j < |Parts(q)| && Parts(q)[j] == part;
    RecordedFields(t, b, q, at, j);
  }

  lemma RetryRebuilt(t: Store, b: Settings, q: CaptureRequest, at: Start, again: Start, i: nat)
    requires i < |Parts(q)| && Recorded(t, b, q, at, i)
    requires again.seqNo == at.seqNo && again.parent == at.parent
    requires again.context == Each(b.redactor, Each(b.redactor, at.context + q.context))
    ensures var raw := RawEvent(b, q, at, i);
            && raw.id in t.events && raw.context == at.context + q.context && raw.payload == FullPayload(q, Parts(q)[i])
            && Rebuilt(raw, t.events[raw.id], q.context, RawEvent(b, q, again, i))
  {
    hide Parts, PartId, FullPayload, OrElse, Each, Flagged;
    RedactedFields(b, RawEvent(b, q, at, i));
  }

  /** Each event of a retry is taken for the stored one exactly when it has settled. */
  lemma RetryEach(t: Store, b: Settings, q: CaptureRequest, at: Start, again: Start, i: nat)
    requires b.redactor.Lawful() && i < |Parts(q)| && Recorded(t, b, q, at, i)
    requires again.seqNo == at.seqNo && again.parent == at.parent
    requires again.context == Each(b.redactor, Each(b.redactor, at.context + q.context))
    ensures var p := Prepare(t, b, RawEvent(b, q, again, i));
            && (p.Some? <==> Stable(b.redactor, FullPayload(q, Parts(q)[i]), at.context, q.context))
            && (p.Some? ==> p.value.id == PartId(b, q, Parts(q)[i]) && Stored(t, p.value)
                            && Redact(b.redactor, p.value) == p.value)
  {
    hide Parts, PartId, FullPayload, Prepare, Redact, Stable, Rebuilt, RawEvent;
    var raw := RawEvent(b, q, at, i);
    RetryRebuilt(t, b, q, at, again, i);
    RetryPrepared(t, b, raw, at.context, q.context, RawEvent(b, q, again, i));
    RecordedFields(t, b, q, at, i);
    RawEventId(b, q, at, i);
    if Stable(b.redactor, raw.payload, at.context, q.context) {
      StoredSettled(b, raw, at.context, q.context);
    }
  }

  lemma RawEventId(b: Settings, q: CaptureRequest, at: Start, i: nat)
    requires i < |Parts(q)|
    ensures RawEvent(b, q, at, i).id == PartId(b, q, Parts(q)[i])
  {
    hide Parts, PartId, FullPayload, OrElse;
  }

  /** Each event of the retry is taken for the stored one exactly when it has settled. */
  ghost predicate EachAgain(t: Store, b: Settings, q: CaptureRequest, again: Start, inherited: map<string, string>,
                            own: map<string, string>) {
    forall i :: 0 <= i < |Parts(q)| ==>
      var p := Prepare(t, b, RawEvent(b, q, again, i));
      && (p.Some? <==> Stable(b.redactor, FullPayload(q, Parts(q)[i]), inherited, own))
      && (p.Some? ==> p.value.id == PartId(b, q, Parts(q)[i]) && Stored(t, p.value)
                      && Redact(b.redactor, p.value) == p.value)
  }

  predicate AllSettle(b: Settings, q: CaptureRequest, inherited: map<string, string>, own: map<string, string>) {
    forall part :: part in Parts(q) ==> Stable(b.redactor, FullPayload(q, part), inherited, own)
  }

  lemma RetryFrom(t: Store, b: Settings, q: CaptureRequest, time: int, inherited: map<string, string>,
                  own: map<string, string>)
    requires Filed(t, q) == {} || Filed(t, q) == PartIds(b, q)
    requires EachAgain(t, b, q, StartOf(t, q, time), inherited, own)
    ensures Capture(t, b, q, time) ==
            Answer(t, if AllSettle(b, q, inherited, own) then Written(Repeats(b, q)) else Refused)
  {
    hide Parts, PartId, PartIds, FullPayload, Prepare, PrepareAll, Redact, Stable, Raw, RawEvent, Filed, StartOf, Write,
      Each, Recorded;
    var again := StartOf(t, q, time);
    var raw := Raw(b, q, again);
    RawSize(b, q, again);
    PrepareAllAt(t, b, raw);
    forall i | 0 <= i < |raw|
      ensures var p := Prepare(t, b, raw[i]);
              && (p.Some? <==> Stable(b.redactor, FullPayload(q, Parts(q)[i]), inherited, own))
              && (p.Some? ==> p.value.id == PartId(b, q, Parts(q)[i]) && Stored(t, p.value)
                              && Redact(b.redactor, p.value) == p.value)
    {
      RawAt(b, q, again, i);
    }
    if AllSettle(b, q, inherited, own) {
      forall e | e in raw ensures Prepare(t, b, e).Some? {
        var i :| 0 <= i < |raw| && raw[i] == e;
        assert Parts(q)[i] in Parts(q);
      }
      var p := PrepareAll(t, b, raw).value;
      PreparedIds(t, b, raw);
      RawIds(b, q, again);
      SettledWrite(t, b, p);
      assert Duplicates(p) == Repeats(b, q);
    } else {
      var part :| part in Parts(q) && !Stable(b.redactor, FullPayload(q, part), inherited, own);
      var i :| 0 <= i < |Parts(q)| && Parts(q)[i] == part;
      assert raw[i] in raw;
    }
  }

  /** A retry with every event filed. */
  lemma RetryFiled(t: Store, b: Settings, q: CaptureRequest, at: Start, time: int)
    requires b.redactor.Lawful() && Parts(q) != [] && Filed(t, q) == PartIds(b, q)
    requires forall i :: 0 <= i < |Parts(q)| ==> Recorded(t, b, q, at, i)
    ensures Capture(t, b, q, time) ==
            Answer(t, if AllSettle(b, q, at.context, q.context) then Written(Repeats(b, q)) else Refused)
  {
    hide Parts, PartId, PartIds, FullPayload, Prepare, Redact, Stable, RawEvent, Filed, StartOf, Capture, Each,
      Recorded, AllSettle;
    SameStart(t, b, q, at, time);
    var again := StartOf(t, q, time);
    forall i | 0 <= i < |Parts(q)|
      ensures var p := Prepare(t, b, RawEvent(b, q, again, i));
              && (p.Some? <==> Stable(b.redactor, FullPayload(q, Parts(q)[i]), at.context, q.context))
              && (p.Some? ==> p.value.id == PartId(b, q, Parts(q)[i]) && Stored(t, p.value)
                              && Redact(b.redactor, p.value) == p.value)
    {
      RetryEach(t, b, q, at, again, i);
    }
    RetryFrom(t, b, q, time, at.context, q.context);
  }

  /** With nothing filed a retry starts at the end of the timeline. If that is not where
      the first call started, its events are not there. */
  lemma RetryElsewhere(t: Store, b: Settings, q: CaptureRequest, at: Start, time: int)
    requires Parts(q) != [] && StartOf(t, q, time).seqNo != at.seqNo
    requires Recorded(t, b, q, at, 0)
    ensures Capture(t, b, q, time) == Answer(t, Refused)
  {
    hide Parts, PartId, Prepare, PrepareAll, Raw, Filed, Write, Recorded, StartOf;
    RecordedFields(t, b, q, at, 0);
    var again := StartOf(t, q, time);
    var raw := Raw(b, q, again);
    RawSize(b, q, again);
    RawAt(b, q, again, 0);
    PrepareSays(t, b, raw[0]);
    PrepareAllAt(t, b, raw);
    assert raw[0] in raw;
  }

  /** If it is, its events are the first call's before redaction. */
  lemma RetryUnfiled(t: Store, b: Settings, q: CaptureRequest, at: Start, time: int)
    requires b.redactor.Lawful() && Filed(t, q) == {} && StartOf(t, q, time) == at.(time := time)
    requires forall i :: 0 <= i < |Parts(q)| ==> Recorded(t, b, q, at, i)
    ensures Capture(t, b, q, time) ==
            Answer(t, if AllSettle(b, q, map[], at.context + q.context) then Written(Repeats(b, q)) else Refused)
  {
    hide Parts, PartId, FullPayload, Prepare, Redact, Stable, RawEvent, Filed, StartOf, Capture, Each, Recorded,
      AllSettle;
    var again := StartOf(t, q, time);
    forall i | 0 <= i < |Parts(q)|
      ensures var p := Prepare(t, b, RawEvent(b, q, again, i));
              && (p.Some? <==> Stable(b.redactor, FullPayload(q, Parts(q)[i]), map[], at.context + q.context))
              && (p.Some? ==> p.value.id == PartId(b, q, Parts(q)[i]) && Stored(t, p.value)
                              && Redact(b.redactor, p.value) == p.value)
    {
      RetrySame(t, b, q, at, time, i);
    }
    RetryFrom(t, b, q, time, map[], at.context + q.context);
  }

  lemma RetrySame(t: Store, b: Settings, q: CaptureRequest, at: Start, time: int, i: nat)
    requires b.redactor.Lawful() && i < |Parts(q)| && Recorded(t, b, q, at, i)
    ensures var p := Prepare(t, b, RawEvent(b, q, at.(time := time), i));
            && (p.Some? <==> Stable(b.redactor, FullPayload(q, Parts(q)[i]), map[], at.context + q.context))
            && (p.Some? ==> p.value.id == PartId(b, q, Parts(q)[i]) && Stored(t, p.value)
                            && Redact(b.redactor, p.value) == p.value)
  {
    hide Parts, PartId, FullPayload, Prepare, Redact, Stable, Rebuilt, RawEvent;
    var raw, again := RawEvent(b, q, at, i), RawEvent(b, q, at.(time := time), i);
    RawAtTime(t, b, q, at, time, i);
    RetryPrepared(t, b, raw, map[], raw.context, again);
    RecordedFields(t, b, q, at, i);
    RawEventId(b, q, at, i);
    if Stable(b.redactor, raw.payload, map[], raw.context) {
      StoredSettled(b, raw, map[], raw.context);
    }
  }

  lemma RawAtTime(t: Store, b: Settings, q: CaptureRequest, at: Start, time: int, i: nat)
    requires i < |Parts(q)| && Recorded(t, b, q, at, i)
    ensures var raw := RawEvent(b, q, at, i);
            && raw.id in t.events && raw.context == map[] + raw.context && raw.context == at.context + q.context
            && raw.payload == FullPayload(q, Parts(q)[i])
            && Rebuilt(raw, t.events[raw.id], raw.context, RawEvent(b, q, at.(time := time), i))
  {
    hide Parts, PartId, FullPayload, OrElse, Flagged;
    var raw := RawEvent(b, q, at, i);
    RedactedFields(b, raw);
    assert t.events[raw.id].context.Keys == raw.context.Keys;
    assert t.events[raw.id].context + raw.context == raw.context;
    assert map[] + raw.context == raw.context;
  }

  /** Nothing is filed under the capture id, and the timeline ends right before the
      capture's own first event. */
  ghost predicate StartsAgain(t: Store, q: CaptureRequest, at: Start) {
    Filed(t, q) == {} && Next(t, q.task, q.session, 0).seqNo == at.seqNo
  }

  /** Positions are unique in a session, so the same position is the same start. */
  lemma SamePosition(s: Store, t: Store, q: CaptureRequest, time: int, later: int)
    requires Inv(t) && Grows(s, t) && Filed(s, q) == {}
    requires SessionIds(t, q.task, q.session) != {} && StartsAgain(t, q, StartOf(s, q, time))
    ensures StartOf(t, q, later) == StartOf(s, q, time).(time := later)
  {
    hide Inv, Grows, Timeline, Filed, SessionIds;
    var line, before := Timeline(t, q.task, q.session), Timeline(s, q.task, q.session);
    SomeTimeline(t, q.task, q.session);
    TimelineSession(t, q.task, q.session);
    TimelineSession(s, q.task, q.session);
    assert before != {};
    var x, y := Last(s, before), Last(t, line);
    assert x in s.events && y in t.events;
    EventKept(s, t, x);
    assert x == y by { SlotUnique(t, x, y); }
  }

  lemma EventKept(s: Store, t: Store, id: string)
    requires Grows(s, t) && id in s.events
    ensures id in t.events && t.events[id] == s.events[id]
  {
  }

  lemma SomeTimeline(s: Store, task: string, session: string)
    requires SessionIds(s, task, session) != {}
    ensures Timeline(s, task, session) != {}
  {
    var all := SessionIds(s, task, session);
    var id := LowestExists(s, all);
    assert (set o | o in all && s.events[o].seqNo < s.events[id].seqNo) == {};
    assert id in Timeline(s, task, session);
  }

  /** An accepted capture found nothing filed under its id. */
  lemma NothingFiled(s: Store, b: Settings, q: CaptureRequest, time: int)
    requires Inv(s) && Parts(q) != [] && Capture(s, b, q, time).reply.Written?
    requires forall v :: v in Capture(s, b, q, time).reply.verdicts ==> v.Accepted?
    ensures Filed(s, q) == {}
  {
    hide Inv, Run, PrepareAll, Raw, RawEvent, Parts, PartId, PartIds, StartOf, Filed, IdsOf, Redact, Write;
    if Filed(s, q) != {} {
      FirstCapture(s, b, q, time, 0);
      ReuseRefused(s, b, q, time);
      FirstIn(b, q);
      FiledStored(s, q);
    }
  }

  lemma FirstIn(b: Settings, q: CaptureRequest)
    requires Parts(q) != []
    ensures PartId(b, q, Parts(q)[0]) in PartIds(b, q)
  {
    hide Parts, PartId;
    assert Parts(q)[0] in Parts(q);
  }

  /** The retry theorem. A capture whose events were all accepted, repeated after any
      growth of the store, writes nothing. It answers with one duplicate per event exactly
      when the events filed under its capture id are its own and redaction has settled, or
      when none is filed, the timeline ends where the capture began and one redaction
      settles everything; it is refused otherwise. */
  lemma RetryExactly(s: Store, b: Settings, q: CaptureRequest, time: int, t: Store, later: int)
    requires b.redactor.Lawful() && Inv(s) && Inv(t) && Parts(q) != []
    requires Capture(s, b, q, time).reply.Written?
    requires forall v :: v in Capture(s, b, q, time).reply.verdicts ==> v.Accepted?
    requires Grows(Capture(s, b, q, time).store, t)
    ensures var at := StartOf(s, q, time);
            Capture(t, b, q, later) ==
            Answer(t, if (Filed(t, q) == PartIds(b, q) && AllSettle(b, q, at.context, q.context))
                         || (StartsAgain(t, q, at) && AllSettle(b, q, map[], at.context + q.context))
                      then Written(Repeats(b, q)) else Refused)
  {
    hide Inv, Grows, Capture, Filed, StartOf, Parts, PartId, PartIds, AllSettle, Recorded, SessionIds, Next, Timeline;
    var at := StartOf(s, q, time);
    var u := Capture(s, b, q, time).store;
    forall i | 0 <= i < |Parts(q)| ensures Recorded(t, b, q, at, i) {
      FirstCapture(s, b, q, time, i);
      RecordedKept(u, t, b, q, at, i);
    }
    NothingFiled(s, b, q, time);
    SomePart(b, q);
    if Filed(t, q) == {} {
      StartOfNext(t, q, later);
      if StartsAgain(t, q, at) {
        HasSession(t, b, q, at);
        DoInv(s, b, DoCapture(q, time));
        GrowsTransitive(s, u, t);
        SamePosition(s, t, q, time, later);
        RetryUnfiled(t, b, q, at, later);
      } else {
        RetryElsewhere(t, b, q, at, later);
      }
    } else if Filed(t, q) == PartIds(b, q) {
      RetryFiled(t, b, q, at, later);
    } else {
      ReuseRefused(t, b, q, later);
    }
  }

  lemma StartOfNext(t: Store, q: CaptureRequest, later: int)
    requires Filed(t, q) == {}
    ensures StartOf(t, q, later).seqNo == Next(t, q.task, q.session, 0).seqNo
  {
    hide Timeline, Filed;
  }

  lemma HasSession(t: Store, b: Settings, q: CaptureRequest, at: Start)
    requires Parts(q) != [] && Recorded(t, b, q, at, 0)
    ensures PartId(b, q, Parts(q)[0]) in SessionIds(t, q.task, q.session)
  {
    hide Parts, PartId, Recorded;
    RecordedFields(t, b, q, at, 0);
  }

  /** The query reads 5000 events. A capture of a linear session that ran across that limit
      can never be retried, and one is taken up again unfiled only if it began right
      behind it. */
  lemma RetryAcrossLimit(s: Store, b: Settings, q: CaptureRequest, time: int, t: Store, later: int, ids: seq<string>)
    requires b.redactor.Lawful() && Inv(s) && Inv(t) && Parts(q) != []
    requires Capture(s, b, q, time).reply.Written?
    requires forall v :: v in Capture(s, b, q, time).reply.verdicts ==> v.Accepted?
    requires Grows(Capture(s, b, q, time).store, t) && Log(t, q.session, ids)
    ensures var at := StartOf(s, q, time);
            && (at.seqNo < 5000 < at.seqNo + |Parts(q)| ==> Capture(t, b, q, later) == Answer(t, Refused))
            && (Filed(t, q) == {} ==> (StartsAgain(t, q, at) <==> at.seqNo == 5000))
  {
    hide Inv, Grows, Capture, StartOf, Parts, PartId, PartIds, AllSettle, Recorded, SessionIds, Next, Timeline, Log,
      Filed;
    var at := StartOf(s, q, time);
    var u := Capture(s, b, q, time).store;
    var last := |Parts(q)| - 1;
    forall i | 0 <= i < |Parts(q)| ensures Recorded(t, b, q, at, i) {
      FirstCapture(s, b, q, time, i);
      RecordedKept(u, t, b, q, at, i);
    }
    RecordedFields(t, b, q, at, 0);
    RecordedFields(t, b, q, at, last);
    var first, final := PartId(b, q, Parts(q)[0]), PartId(b, q, Parts(q)[last]);
    LogHolds(t, q.session, ids, first);
    LogHolds(t, q.session, ids, final);
    SessionHasOneTask(t, ids[0], first, q.session) by { LogStart(t, q.session, ids); }
    NextOfLog(t, q.task, q.session, ids, 0);
    if at.seqNo < 5000 < at.seqNo + |Parts(q)| {
      RetryExactly(s, b, q, time, t, later);
      BeyondLimit(t, q, ids, final);
      assert Parts(q)[last] in Parts(q);
      assert final in PartIds(b, q) by { PartIn(b, q, last); }
    }
  }

  lemma PartIn(b: Settings, q: CaptureRequest, i: nat)
    requires i < |Parts(q)|
    ensures PartId(b, q, Parts(q)[i]) in PartIds(b, q)
  {
    hide Parts, PartId;
    assert Parts(q)[i] in Parts(q);
  }

  lemma LogStart(s: Store, session: string, ids: seq<string>)
    requires Log(s, session, ids) && ids != []
    ensures ids[0] in s.events && s.events[ids[0]].session == Some(session)
  {
  }

  lemma LogHolds(s: Store, session: string, ids: seq<string>, id: string)
    requires Log(s, session, ids) && id in s.events && s.events[id].session == Some(session)
    ensures ids != [] && s.events[id].seqNo < |ids| && ids[s.events[id].seqNo] == id
  {
    var i :| 0 <= i < |ids| && ids[i] == id;
  }

  lemma BeyondLimit(t: Store, q: CaptureRequest, ids: seq<string>, id: string)
    requires Inv(t) && Log(t, q.session, ids) && id in t.events && t.events[id].seqNo >= 5000
    ensures id !in Filed(t, q)
  {
    hide Inv, Timeline;
    TimelineOfLog(t, q.task, q.session, ids);
    forall o | o in Timeline(t, q.task, q.session) ensures t.events[o].seqNo < 5000 {
      var i :| 0 <= i < Min(|ids|, 5000) && ids[..Min(|ids|, 5000)][i] == o;
      assert t.events[ids[i]].seqNo == i;
    }
  }

  lemma SomePart(b: Settings, q: CaptureRequest)
    requires Parts(q) != []
    ensures PartIds(b, q) != {}
  {
    hide Parts, PartId;
    assert Parts(q)[0] in Parts(q);
    assert PartId(b, q, Parts(q)[0]) in PartIds(b, q);
  }

  lemma RecordedKept(u: Store, t: Store, b: Settings, q: CaptureRequest, at: Start, i: nat)
    requires i < |Parts(q)| && Recorded(u, b, q, at, i) && Grows(u, t)
    ensures Recorded(t, b, q, at, i)
  {
    hide Parts, RawEvent, Redact;
  }

  /******* start and finish repeated *******/

  lemma WrittenOnce(s: Store, b: Settings, e: Event, t: Store)
    requires Inv(s) && WriteOne(s, b, e).reply == Written([Accepted]) && Grows(WriteOne(s, b, e).store, t)
    ensures e.id in t.events && t.events[e.id] == Redact(b.redactor, Redact(b.redactor, e))
  {
    hide Inv, Step, Redact, Write;
    var p := Prepare(s, b, e).value;
    WriteCases(s, b, [p]);
    var written := RedactAll(b, [p]);
    assert written == [Redact(b.redactor, p)];
    AcceptedStored(s, written, 0);
    RedactKeepsId(b, p);
    RedactKeepsId(b, e);
    PrepareSays(s, b, e);
    StoredIs(Run(s, written).store, written[0]);
  }

  lemma BeginRetry(s: Store, b: Settings, q: EdgeRequest, t: Store, later: int)
    requires b.redactor.Lawful() && Inv(s)
    requires Begin(s, b, q).reply == Written([Accepted]) && Grows(Begin(s, b, q).store, t)
    ensures Begin(t, b, q.(time := later)) ==
            Answer(t, if Stable(b.redactor, map["bridge_schema_version" := SCHEMA] + q.payload, map[], q.context)
                      then Written([Duplicate(b.eventId(q.session, "started"))]) else Refused)
  {
    hide Inv, Grows, WriteOne, Stable, Redact;
    var e := EdgeEvent(b, q, SessionStarted, "started", Start(0, None, map[], q.time));
    var again := EdgeEvent(b, q.(time := later), SessionStarted, "started", Start(0, None, map[], later));
    WrittenOnce(s, b, e, t);
    RedactedFields(b, e);
    assert t.events[e.id].context.Keys == q.context.Keys;
    assert t.events[e.id].context + q.context == map[] + q.context;
    assert Rebuilt(e, t.events[e.id], q.context, again);
    RetryOne(t, b, e, map[], q.context, again);
  }

  lemma FinishRetry(s: Store, b: Settings, q: EdgeRequest, t: Store, later: int)
    requires b.redactor.Lawful() && Inv(s)
    requires Finish(s, b, q).reply == Written([Accepted]) && Grows(Finish(s, b, q).store, t)
    ensures Finish(t, b, q.(time := later)) ==
            Answer(t, if Stable(b.redactor, map["bridge_schema_version" := SCHEMA] + q.payload,
                                FinishStart(s, b, q).context, q.context)
                      then Written([Duplicate(b.eventId(q.session, "finished"))]) else Refused)
  {
    hide Inv, Grows, WriteOne, Stable, Redact, Next;
    var at := FinishStart(s, b, q);
    var e := EdgeEvent(b, q, SessionEnded, "finished", at);
    WrittenOnce(s, b, e, t);
    RedactedFields(b, e);
    var q2 := q.(time := later);
    var again := EdgeEvent(b, q2, SessionEnded, "finished", FinishStart(t, b, q2));
    assert Rebuilt(e, t.events[e.id], q.context, again);
    RetryOne(t, b, e, at.context, q.context, again);
  }

  /******* A retry that is refused *******/

  const PLAIN := Redactor((k, v) => v, (k, v) => false)
  const JOINED := Settings((session, suffix) => session + "/" + suffix, PLAIN)

  /** A single validation whose own result carries another `capture_id`. */
  const OVERRIDE := CaptureRequest("p", "t", "s", "c", "", [], [], [], [map["capture_id" := "other"]], [], "",
                                   "partial",
                                   map[], "")

  lemma OverrideParts()
    ensures Parts(OVERRIDE) == [Part(ValidationRun, map["capture_id" := "other"], "validation-0")]
  {
    assert Decimal(0) == "0";
    assert "validation-" + "0" == "validation-0";
  }

  lemma PlainChangesNothing(e: Event)
    ensures Redact(PLAIN, e) == e
  {
    assert Each(PLAIN, e.context) == e.context && Each(PLAIN, e.payload) == e.payload;
    assert Flagged(PLAIN, e.context, "context.") == {} && Flagged(PLAIN, e.payload, "payload.") == {};
  }

  lemma FirstOverride() returns (e: Event)
    ensures var first := Capture(EMPTY, JOINED, OVERRIDE, 0);
            first.reply == Written([Accepted]) && first.store.events == map[e.id := e]
            && Lookup(e.payload, "capture_id") == Some("other") && e.task == "t" && e.session == Some("s")
  {
    hide Parts, Step, PartId, Each, Flagged, Redact, Decimal;
    OverrideParts();
    assert SessionIds(EMPTY, "t", "s") == {};
    var at := StartOf(EMPTY, OVERRIDE, 0);
    assert at == Start(0, None, map[], 0);
    e := RawEvent(JOINED, OVERRIDE, at, 0);
    assert Raw(JOINED, OVERRIDE, at) == [e];
    PlainChangesNothing(e);
    PrepareSingle(EMPTY, JOINED, e);
    assert RedactAll(JOINED, [e]) == [e];
    FreshAccepted(e);
    assert [e][..0] == [];
    RunSnoc(EMPTY, [], e);
    assert [] + [e] == [e] && [] + [Accepted] == [Accepted];
  }

  lemma FreshAccepted(e: Event)
    requires RepoId(e) == None && Truthy(e.session)
    ensures Step(EMPTY, e).verdict == Accepted && Step(EMPTY, e).store.events == map[e.id := e]
  {
    assert Existing(EMPTY.events, e).None?;
    assert ExternalHits(EMPTY.events, e) == {} && SlotHits(EMPTY.events, e) == {};
  }

  lemma StartOfNone()
    ensures StartOf(EMPTY, OVERRIDE, 0).seqNo == 0
  {
    assert SessionIds(EMPTY, "t", "s") == {};
  }

  lemma NextAfter(t: Store, task: string, session: string)
    requires SessionIds(t, task, session) != {}
    ensures Next(t, task, session, 0).seqNo > 0
  {
    hide Timeline;
    SomeTimeline(t, task, session);
  }

  /** Accepted once and refused when repeated: its event is not filed under its own
      capture id. */
  lemma OverriddenIdRefused()
    ensures var first := Capture(EMPTY, JOINED, OVERRIDE, 0);
            && first.reply == Written([Accepted])
            && Capture(first.store, JOINED, OVERRIDE, 0) == Answer(first.store, Refused)
  {
    hide Parts, PartIds, Capture, AllSettle, Inv, Grows, Next;
    var e := FirstOverride();
    var t := Capture(EMPTY, JOINED, OVERRIDE, 0).store;
    OverrideParts();
    EmptyInv();
    GrowsReflexive(t);
    DoInv(EMPTY, JOINED, DoCapture(OVERRIDE, 0));
    assert Filed(t, OVERRIDE) == {};
    SomePart(JOINED, OVERRIDE);
    StartOfNone();
    assert e.id in SessionIds(t, "t", "s");
    NextAfter(t, "t", "s");
    RetryExactly(EMPTY, JOINED, OVERRIDE, 0, t, 0);
  }
}
