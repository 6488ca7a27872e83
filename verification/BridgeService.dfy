/** The bridge service itself, step by step, against the functions of `Bridge`. */
module BridgeService {
  import opened Base
  import opened Events
  import opened Ingest
  import opened IngestTheorems
  import opened Repository
  import opened Replay
  import opened Bridge
  import opened BridgeTheorems

  /******* Rows of a timeline *******/

  /** `rows` lists the events of `ids` once each, by sequence number. */
  ghost predicate Ordered(s: Store, ids: set<string>, rows: seq<Event>) {
    && ids <= s.events.Keys
    && (forall i :: 0 <= i < |rows| ==> rows[i].id in ids && s.events[rows[i].id] == rows[i])
    && (forall i, j :: 0 <= i < j < |rows| ==> rows[i].seqNo < rows[j].seqNo)
    && (forall id :: id in ids ==> s.events[id] in rows)
  }

  ghost predicate Separated(s: Store, low: set<string>, high: set<string>) {
    && low <= s.events.Keys && high <= s.events.Keys
    && forall id, o :: id in low && o in high ==> s.events[id].seqNo < s.events[o].seqNo
  }

  lemma {:induction false} CountDistinct(rows: seq<Event>)
    requires forall i, j :: 0 <= i < j < |rows| ==> rows[i].id != rows[j].id
    ensures |IdsOf(rows)| == |rows|
    decreases |rows|
  {
    if rows != [] {
      var n := |rows| - 1;
      var before := rows[..n];
      CountDistinct(before);
      assert rows == before + [rows[n]];
      assert rows[n].id !in IdsOf(before);
      assert IdsOf(rows) == IdsOf(before) + {rows[n].id};
    }
  }

  lemma CountRows(s: Store, ids: set<string>, rows: seq<Event>, i: nat)
    requires Ordered(s, ids, rows) && i <= |rows|
    ensures |IdsOf(rows[..i])| == i
  {
    forall j, k | 0 <= j < k < |rows| ensures rows[j].id != rows[k].id {
      assert s.events[rows[j].id] == rows[j] && s.events[rows[k].id] == rows[k];
    }
    CountDistinct(rows[..i]);
  }

  /** The events below a row are the rows before it. */
  lemma BelowRow(s: Store, ids: set<string>, rows: seq<Event>, all: set<string>, i: nat)
    requires Ordered(s, ids, rows) && ids <= all && Separated(s, ids, all - ids) && i < |rows|
    requires forall id :: id in s.events ==> s.events[id].id == id
    ensures (set o | o in all && s.events[o].seqNo < rows[i].seqNo) == IdsOf(rows[..i])
  {
    forall o | o in all ensures s.events[o].seqNo < rows[i].seqNo <==> o in IdsOf(rows[..i]) {
      assert rows[i].id in ids;
      if o in ids {
        var j :| 0 <= j < |rows| && rows[j] == s.events[o];
        if j < i {
          assert rows[..i][j] == rows[j];
        } else {
          forall e | e in rows[..i] ensures e.id != o {
            var k :| 0 <= k < i && rows[k] == e;
            assert s.events[rows[k].id] == rows[k];
          }
        }
      } else {
        forall e | e in rows[..i] ensures e.id != o {
          var k :| 0 <= k < i && rows[k] == e;
          assert rows[k].id in ids;
        }
      }
    }
    forall e | e in rows[..i] ensures e.id in all {
      var k :| 0 <= k < i && rows[k] == e;
      assert rows[k].id in ids;
    }
  }

  /** Every row has fewer than 5000 below it; what was not read has 5000. */
  lemma RowsBelow(s: Store, ids: set<string>, rows: seq<Event>, all: set<string>, id: string)
    requires Ordered(s, ids, rows) && ids <= all && Separated(s, ids, all - ids) && id in all
    requires forall id :: id in s.events ==> s.events[id].id == id
    ensures id in ids ==> |set o | o in all && s.events[o].seqNo < s.events[id].seqNo| < |rows|
    ensures id !in ids ==> |rows| <= |set o | o in all && s.events[o].seqNo < s.events[id].seqNo|
  {
    if id in ids {
      var i :| 0 <= i < |rows| && rows[i] == s.events[id];
      CountRows(s, ids, rows, i);
      BelowRow(s, ids, rows, all, i);
    } else {
      CountRows(s, ids, rows, |rows|);
      assert rows[..|rows|] == rows;
      forall o | o in IdsOf(rows) ensures o in all && s.events[o].seqNo < s.events[id].seqNo {
        var e :| e in rows && e.id == o;
        var k :| 0 <= k < |rows| && rows[k] == e;
        assert rows[k].id in ids;
      }
      SubsetSize(IdsOf(rows), set o | o in all && s.events[o].seqNo < s.events[id].seqNo);
    }
  }

  /** The rows read in order until 5000 or all of them are exactly the timeline. */
  lemma TimelineRead(s: Store, task: string, session: string, ids: set<string>, rows: seq<Event>)
    requires Inv(s) && Ordered(s, ids, rows) && ids <= SessionIds(s, task, session)
    requires Separated(s, ids, SessionIds(s, task, session) - ids)
    requires |rows| == 5000 || (|rows| < 5000 && ids == SessionIds(s, task, session))
    ensures ids == Timeline(s, task, session)
  {
    hide SessionIds, Ordered, Separated;
    assert forall id :: id in s.events ==> s.events[id].id == id;
    var all := SessionIds(s, task, session);
    SessionStored(s, task, session);
    forall id | id in all ensures id in ids <==> |set o | o in all && s.events[o].seqNo < s.events[id].seqNo| < 5000 {
      RowsBelow(s, ids, rows, all, id);
    }
  }

  lemma SessionStored(s: Store, task: string, session: string)
    ensures SessionIds(s, task, session) <= s.events.Keys
    ensures forall id :: id in SessionIds(s, task, session) ==> s.events[id].session == Some(session)
  {
  }

  /** The highest row of a timeline is its last event. */
  lemma HighestIsLast(s: Store, ids: set<string>, id: string, session: string)
    requires Inv(s) && Highest(s, ids, id) && forall o :: o in ids ==> s.events[o].session == Some(session)
    ensures Last(s, ids) == id
  {
    hide Inv;
    SlotUnique(s, id, Last(s, ids));
  }

  lemma LowestIsFirst(s: Store, ids: set<string>, id: string, session: string)
    requires Inv(s) && Lowest(s, ids, id) && forall o :: o in ids ==> s.events[o].session == Some(session)
    ensures First(s, ids) == id
  {
    hide Inv;
    SlotUnique(s, id, First(s, ids));
  }

  class AgentBridgeService {
    const repository: MemoryRepository
    const ingest: IngestService
    const settings: Settings

    ghost predicate Valid()
      reads repository
    {
      && repository.Valid() && ingest.repository == repository
      && forall e :: ingest.redact(e) == Redact(settings.redactor, e)
    }

    constructor (repository: MemoryRepository, settings: Settings)
      requires repository.Valid()
      ensures Valid() && this.repository == repository && this.settings == settings
    {
      this.repository, this.settings := repository, settings;
      ingest := new IngestService(repository, e => Redact(settings.redactor, e));
    }

    method Idempotent(e: Event) returns (r: Option<Event>)
      ensures r == Prepare(repository.State(), settings, e)
    {
      if e.id !in repository.events {
        return Some(Redact(settings.redactor, e));
      }
      var existing := repository.events[e.id];
      var normalized := Redact(settings.redactor, e.(occurredAt := existing.occurredAt));
      if Comparable(existing) != Comparable(normalized) {
        return None;
      }
      return Some(existing);
    }

    /** ORDER BY seq LIMIT 5000. */
    method ReadTimeline(task: string, session: string) returns (rows: seq<Event>)
      requires Valid()
      ensures Ordered(repository.State(), Timeline(repository.State(), task, session), rows)
    {
      hide Inv, Ordered, Timeline;
      rows := ReadRows(repository.State(), repository.events, task, session);
    }

    method NextSeq(task: string, session: string)
      returns (seqNo: nat, parent: Option<string>, context: map<string, string>)
      requires Valid()
      ensures forall time :: Next(repository.State(), task, session, time) == Start(seqNo, parent, context, time)
    {
      hide Inv, Timeline;
      var rows := ReadTimeline(task, session);
      ghost var s := repository.State();
      ghost var line := Timeline(s, task, session);
      TimelineSession(s, task, session);
      if rows == [] {
        assert line == {};
        return 0, None, map[];
      }
      var last := rows[0];
      var i := 1;
      while i < |rows|
        invariant 1 <= i <= |rows| && last in rows
        invariant forall j :: 0 <= j < i ==> rows[j].seqNo <= last.seqNo
      {
        if rows[i].seqNo > last.seqNo {
          last := rows[i];
        }
        i := i + 1;
      }
      RowHighest(s, line, rows, last, session);
      return last.seqNo + 1, Some(last.id), last.context;
    }

    /** The rows filed under a capture id, and where the capture starts. */
    method FindStart(q: CaptureRequest, time: int) returns (start: Start, filed: set<string>)
      requires Valid()
      ensures start == StartOf(repository.State(), q, time) && filed == Filed(repository.State(), q)
    {
      hide Inv, Timeline;
      var rows := ReadTimeline(q.task, q.session);
      ghost var s := repository.State();
      TimelineSession(s, q.task, q.session);
      var found: seq<Event> := [];
      var i := 0;
      while i < |rows|
        invariant i <= |rows|
        invariant forall e :: e in found <==> e in rows[..i] && Lookup(e.payload, "capture_id") == Some(q.captureId)
      {
        assert rows[..i + 1] == rows[..i] + [rows[i]];
        if Lookup(rows[i].payload, "capture_id") == Some(q.captureId) {
          found := found + [rows[i]];
        }
        i := i + 1;
      }
      assert rows[..i] == rows;
      filed := IdsOf(found);
      FiledRows(s, q, rows, found);
      if found == [] {
        var seqNo, parent, context := NextSeq(q.task, q.session);
        start := Start(seqNo, parent, context, time);
        return;
      }
      var first := found[0];
      i := 1;
      while i < |found|
        invariant 1 <= i <= |found| && first in found
        invariant forall j :: 0 <= j < i ==> first.seqNo <= found[j].seqNo
      {
        if found[i].seqNo < first.seqNo {
          first := found[i];
        }
        i := i + 1;
      }
      FoundFirst(s, q, found, first);
      start := Start(first.seqNo, first.parent, first.context, first.occurredAt);
    }

    /** The events of a capture, each prepared before the next is built. */
    method Build(q: CaptureRequest, start: Start) returns (r: Option<seq<Event>>)
      requires Valid()
      ensures r == PrepareAll(repository.State(), settings, Raw(settings, q, start))
    {
      hide Inv, Parts, Prepare, PartId, FullPayload, OrElse, Raw;
      ghost var s := repository.State();
      ghost var raw := Raw(settings, q, start);
      RawSize(settings, q, start);
      PrepareAllAt(s, settings, raw);
      var parts := Parts(q);
      var nextSeq, parent := start.seqNo, start.parent;
      var events: seq<Event> := [];
      var i := 0;
      while i < |parts|
        invariant i <= |parts| && nextSeq == start.seqNo + i
        invariant i == 0 ==> parent == start.parent
        invariant i > 0 ==> parent == Some(PartId(settings, q, parts[i - 1]))
        invariant PrepareAll(s, settings, raw[..i]) == Some(events)
      {
        var e := PartEvent(settings, q, parts[i], start, nextSeq, parent);
        RawAt(settings, q, start, i);
        assert e == raw[i];
        var prepared := Idempotent(e);
        assert raw[..i + 1][..i] == raw[..i];
        if prepared.None? {
          assert raw[i] in raw;
          return None;
        }
        PrepareSays(s, settings, e);
        events := events + [prepared.value];
        parent := Some(prepared.value.id);
        nextSeq := nextSeq + 1;
        i := i + 1;
      }
      assert raw[..i] == raw;
      r := Some(events);
    }

    method WriteAll(events: seq<Event>) returns (reply: Reply)
      requires Valid()
      modifies repository
      ensures Valid() && Answer(repository.State(), reply) == Write(old(repository.State()), settings, events)
    {
      hide Inv, Step, Run;
      var batch := ingest.IngestMany(events);
      assert Redacted(events, ingest.redact) == RedactAll(settings, events);
      reply := match batch
        case Committed(verdicts) => Written(verdicts)
        case Aborted(v) => if v.Fault? then Broken else Refused;
    }

    method Capture(q: CaptureRequest, time: int) returns (reply: Reply)
      requires Valid()
      modifies repository
      ensures Valid()
      ensures Answer(repository.State(), reply) == Bridge.Capture(old(repository.State()), settings, q, time)
    {
      hide Inv, Write, PrepareAll, Raw, StartOf, Filed;
      var start, filed := FindStart(q, time);
      var events := Build(q, start);
      if events.None? || (filed != {} && IdsOf(events.value) != filed) {
        return Refused;
      }
      reply := WriteAll(events.value);
    }

    method WriteEdge(raw: Event) returns (reply: Reply)
      requires Valid()
      modifies repository
      ensures Valid() && Answer(repository.State(), reply) == WriteOne(old(repository.State()), settings, raw)
    {
      hide Inv, Write, Prepare;
      var prepared := Idempotent(raw);
      if prepared.None? {
        return Refused;
      }
      hide Step, Redact;
      var e := prepared.value;
      SingleWrite(repository.State(), settings, e);
      var v := ingest.IngestOne(e);
      reply := match v
        case Conflict(_) => Refused
        case Fault => Broken
        case _ => Written([v]);
    }

    method Begin(q: EdgeRequest) returns (reply: Reply)
      requires Valid()
      modifies repository
      ensures Valid() && Answer(repository.State(), reply) == Bridge.Begin(old(repository.State()), settings, q)
    {
      hide Inv, WriteOne;
      reply := WriteEdge(EdgeEvent(settings, q, SessionStarted, "started", Start(0, None, map[], q.time)));
    }

    method Finish(q: EdgeRequest) returns (reply: Reply)
      requires Valid()
      modifies repository
      ensures Valid() && Answer(repository.State(), reply) == Bridge.Finish(old(repository.State()), settings, q)
    {
      hide Inv, WriteOne, Next;
      var seqNo, parent, context := NextSeq(q.task, q.session);
      var start := Start(seqNo, parent, context, q.time);
      var id := settings.eventId(q.session, "finished");
      if id in repository.events {
        var existing := repository.events[id];
        start := Start(existing.seqNo, existing.parent, existing.context, existing.occurredAt);
      }
      reply := WriteEdge(EdgeEvent(settings, q, SessionEnded, "finished", start));
    }
  }

  /** A batch of one event is that event ingested on its own. */
  lemma SingleWrite(s: Store, b: Settings, e: Event)
    ensures var o := Step(s, Redact(b.redactor, e));
            Write(s, b, [e]) ==
            if o.verdict.Rejected() then Answer(s, if o.verdict.Fault? then Broken else Refused)
            else Answer(o.store, Written([o.verdict]))
    ensures Step(s, Redact(b.redactor, e)).verdict.Rejected() ==> Step(s, Redact(b.redactor, e)).store == s
  {
    hide Step, Redact;
    var x := Redact(b.redactor, e);
    var es := [x];
    assert RedactAll(b, [e]) == es;
    assert es[..0] == [];
    RunSnoc(s, [], x);
    assert [] + es == es && [] + [Step(s, x).verdict] == [Step(s, x).verdict];
    NotAcceptedUnchanged(s, x);
    assert [Step(s, x).verdict][1..] == [];
  }

  lemma RowHighest(s: Store, ids: set<string>, rows: seq<Event>, last: Event, session: string)
    requires Inv(s) && Ordered(s, ids, rows) && last in rows
    requires forall j :: 0 <= j < |rows| ==> rows[j].seqNo <= last.seqNo
    requires forall o :: o in ids ==> s.events[o].session == Some(session)
    ensures ids != {} && last == s.events[Last(s, ids)]
  {
    hide Inv;
    forall o | o in ids ensures s.events[o].seqNo <= last.seqNo {
      var j :| 0 <= j < |rows| && rows[j] == s.events[o];
    }
    HighestIsLast(s, ids, last.id, session);
  }

  lemma FiledRows(s: Store, q: CaptureRequest, rows: seq<Event>, found: seq<Event>)
    requires Inv(s) && Ordered(s, Timeline(s, q.task, q.session), rows)
    requires forall e :: e in found <==> e in rows && Lookup(e.payload, "capture_id") == Some(q.captureId)
    ensures IdsOf(found) == Filed(s, q) && (found == [] <==> Filed(s, q) == {})
    ensures forall e :: e in found <==> e.id in Filed(s, q) && s.events[e.id] == e
  {
    hide Inv, Timeline;
    forall id | id in Filed(s, q) ensures s.events[id] in found && s.events[id].id == id {
      KeyIsId(s, id);
    }
    forall e | e in found ensures e.id in Filed(s, q) && s.events[e.id] == e {
      var j :| 0 <= j < |rows| && rows[j] == e;
    }
    if found != [] {
      assert found[0] in found;
    }
  }

  lemma FoundFirst(s: Store, q: CaptureRequest, found: seq<Event>, first: Event)
    requires Inv(s) && first in found && forall j :: 0 <= j < |found| ==> first.seqNo <= found[j].seqNo
    requires forall id :: id in Filed(s, q) ==> id in s.events
    requires forall e :: e in found <==> e.id in Filed(s, q) && s.events[e.id] == e
    ensures Filed(s, q) != {} && Filed(s, q) <= s.events.Keys && first == s.events[First(s, Filed(s, q))]
  {
    hide Inv, Timeline;
    TimelineSession(s, q.task, q.session);
    forall o | o in Filed(s, q) ensures first.seqNo <= s.events[o].seqNo {
      KeyIsId(s, o);
      var j :| 0 <= j < |found| && found[j] == s.events[o];
    }
    LowestIsFirst(s, Filed(s, q), first.id, q.session);
  }

  method ReadRows(ghost s: Store, events: map<string, Event>, task: string, session: string) returns (rows: seq<Event>)
    requires Inv(s) && events == s.events
    ensures Ordered(s, Timeline(s, task, session), rows)
  {
    hide Inv, Ordered, Separated, Timeline;
    SessionStored(s, task, session);
    rows := [];
    var left := set id | id in events && events[id].task == task && events[id].session == Some(session);
    ghost var all := SessionIds(s, task, session);
    assert left == all && all - left == {};
    NothingRead(s, all);
    while left != {} && |rows| < 5000
      invariant left <= all && |rows| <= 5000
      invariant Ordered(s, all - left, rows) && Separated(s, all - left, left)
      decreases |left|
    {
      ghost var w := LowestExists(s, left);
      assert w in left && forall o :: o in left ==> events[w].seqNo <= events[o].seqNo;
      var id :| id in left && forall o :: o in left ==> events[id].seqNo <= events[o].seqNo;
      ReadRow(s, all - left, left, rows, id, session);
      assert all - (left - {id}) == all - left + {id};
      rows := rows + [events[id]];
      left := left - {id};
    }
    assert all - (all - left) == left;
    TimelineRead(s, task, session, all - left, rows);
  }

  lemma NothingRead(s: Store, all: set<string>)
    requires all <= s.events.Keys
    ensures Ordered(s, {}, []) && Separated(s, {}, all)
  {
  }

  lemma ReadRow(s: Store, read: set<string>, left: set<string>, rows: seq<Event>, id: string, session: string)
    requires Inv(s) && Ordered(s, read, rows) && Separated(s, read, left) && Lowest(s, left, id)
    requires forall o :: o in left ==> s.events[o].session == Some(session)
    ensures Ordered(s, read + {id}, rows + [s.events[id]]) && Separated(s, read + {id}, left - {id})
  {
    hide Inv, Ordered;
    forall o | o in left && o != id ensures s.events[id].seqNo < s.events[o].seqNo {
      if s.events[id].seqNo == s.events[o].seqNo {
        SlotUnique(s, id, o);
      }
    }
    KeyIsId(s, id);
    OrderedMore(s, read, rows, id);
  }

  lemma OrderedMore(s: Store, ids: set<string>, rows: seq<Event>, id: string)
    requires Ordered(s, ids, rows) && id in s.events && s.events[id].id == id
    requires forall o :: o in ids ==> s.events[o].seqNo < s.events[id].seqNo
    ensures Ordered(s, ids + {id}, rows + [s.events[id]])
  {
    var e := s.events[id];
    forall i, j | 0 <= i < j < |rows + [e]| ensures (rows + [e])[i].seqNo < (rows + [e])[j].seqNo {
      if j == |rows| {
        assert rows[i].id in ids;
      }
    }
  }
}
