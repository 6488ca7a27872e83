/** A bridge session is gap-free and linked, retries write nothing, and a reused
    capture id is refused whole. */
module BridgeTheorems {
  import opened Base
  import opened Events
  import opened Ingest
  import opened IngestTheorems
  import opened Repository
  import opened Replay
  import opened Bridge

  /** The parent of the event at position `n` of a log. */
  predicate Before(ids: seq<string>, n: nat, parent: Option<string>) {
    && n <= |ids|
    && (n == 0 ==> parent == None)
    && (n > 0 ==> parent == Some(ids[n - 1]))
  }

  /** `ids` lists the events of a session: seqs 0..n-1, each event's parent the one before. */
  ghost predicate Log(s: Store, session: string, ids: seq<string>) {
    && (forall i :: 0 <= i < |ids| ==>
          ids[i] in s.events && s.events[ids[i]].session == Some(session) && s.events[ids[i]].seqNo == i)
    && (ids != [] ==> s.events[ids[0]].parent == None)
    && (forall i :: 0 < i < |ids| ==> s.events[ids[i]].parent == Some(ids[i - 1]))
    && (forall id :: id in s.events && s.events[id].session == Some(session) ==> id in ids)
  }

  function IdSeq(es: seq<Event>): seq<string> {
    seq(|es|, i requires 0 <= i < |es| => es[i].id)
  }

  /******* Runs against a log *******/

  lemma LogAccept(s: Store, session: string, ids: seq<string>, e: Event)
    requires Log(s, session, ids) && e.session == Some(session) && e.seqNo == |ids| && Before(ids, |ids|, e.parent)
    requires e.id !in s.events
    ensures Log(Insert(s, e), session, ids + [e.id])
  {
    hide TouchProject, TouchTask, TouchRepo, TouchSession, CloseSession;
    var t := Insert(s, e);
    assert t.events == s.events[e.id := e];
  }

  lemma LogBeside(s: Store, session: string, ids: seq<string>, e: Event)
    requires Log(s, session, ids) && e.session != Some(session) && e.id !in s.events
    ensures Log(Insert(s, e), session, ids)
  {
    hide TouchProject, TouchTask, TouchRepo, TouchSession, CloseSession;
    var t := Insert(s, e);
    assert t.events == s.events[e.id := e];
  }

  lemma AcceptedInserts(s: Store, e: Event)
    requires Step(s, e).verdict.Accepted?
    ensures Step(s, e).store == Insert(s, e) && e.id !in s.events
  {
  }

  lemma LinkedPrefix(es: seq<Event>, first: nat, parent: Option<string>, k: nat)
    requires k <= |es| && Linked(es, first, parent)
    ensures Linked(es[..k], first, parent)
    ensures k < |es| ==> es[k].seqNo == first + k
  {
  }

  /** At a taken position only the event already there is not rejected; at the end
      of the log the event is new. */
  lemma AlongStep(s: Store, session: string, ids: seq<string>, e: Event)
    requires Inv(s) && Log(s, session, ids) && e.session == Some(session) && Before(ids, e.seqNo, e.parent)
    requires !Step(s, e).verdict.Rejected()
    ensures e.seqNo < |ids| ==> Step(s, e).verdict.Duplicate? && Step(s, e).store == s && e.id == ids[e.seqNo]
    ensures e.seqNo == |ids| ==> Step(s, e).verdict.Accepted? && Log(Step(s, e).store, session, ids + [e.id])
  {
    hide Step, Insert, Inv;
    VerdictExact(s, e);
    if e.seqNo < |ids| {
      var x := s.events[ids[e.seqNo]];
      KeyIsId(s, ids[e.seqNo]);
      assert SameSlot(x, e);
      assert x == e || Collides(x, e);
    } else if Step(s, e).verdict.Accepted? {
      AcceptedInserts(s, e);
      LogAccept(s, session, ids, e);
    }
  }

  /** The ids of `es` stand in the log from position `first` on. */
  predicate Follows(log: seq<string>, first: nat, es: seq<Event>) {
    first + |es| <= |log| && forall i :: 0 <= i < |es| ==> log[first + i] == es[i].id
  }

  lemma FollowsNone(log: seq<string>, first: nat, parent: Option<string>)
    requires Before(log, first, parent)
    ensures Follows(log, first, []) && first <= |log|
  {
  }

  lemma FollowsLast(log: seq<string>, first: nat, parent: Option<string>, es: seq<Event>)
    requires es != [] && Linked(es, first, parent) && Before(log, first, parent)
    requires Follows(log, first, es[..|es| - 1])
    ensures Before(log, es[|es| - 1].seqNo, es[|es| - 1].parent)
  {
    var n := |es| - 1;
    if n > 0 {
      assert es[..n][n - 1] == es[n - 1] && log[first + (n - 1)] == es[n - 1].id;
    }
  }

  lemma FollowsMore(log: seq<string>, more: seq<string>, first: nat, es: seq<Event>)
    requires es != [] && Follows(log, first, es[..|es| - 1]) && first + |es| <= |log + more|
    requires (log + more)[first + |es| - 1] == es[|es| - 1].id
    ensures Follows(log + more, first, es)
  {
    forall i | 0 <= i < |es| ensures (log + more)[first + i] == es[i].id {
      if i < |es| - 1 {
        assert es[..|es| - 1][i] == es[i] && log[first + i] == es[i].id;
      }
    }
  }

  /** A committed batch linked on from any position of the log retraces the log as
      far as it goes and then extends it. */
  lemma {:induction false} RunAlong(s: Store, session: string, ids: seq<string>, es: seq<Event>,
                                    first: nat, parent: Option<string>) returns (more: seq<string>)
    requires Inv(s) && Log(s, session, ids) && Before(ids, first, parent) && Linked(es, first, parent)
    requires forall e :: e in es ==> e.session == Some(session)
    requires forall v :: v in Run(s, es).verdicts ==> !v.Rejected()
    ensures Log(Run(s, es).store, session, ids + more) && |ids + more| == Max(|ids|, first + |es|)
    ensures Follows(ids + more, first, es)
    decreases |es|
  {
    hide Step, Inv, Log, Linked, Before, Follows;
    if es == [] {
      more := [];
      assert ids + more == ids;
      FollowsNone(ids, first, parent);
    } else {
      var last := |es| - 1;
      var before, e := es[..last], es[last];
      var t := Run(s, before);
      LastVerdict(s, es);
      LinkedPrefix(es, first, parent, last);
      assert forall x :: x in before ==> x in es;
      more := RunAlong(s, session, ids, before, first, parent);
      RunInv(s, before);
      BeforeMore(ids, more, first, parent);
      FollowsLast(ids + more, first, parent, es);
      assert e in es;
      AlongStep(t.store, session, ids + more, e);
      var added := if e.seqNo == |ids + more| then [e.id] else [];
      assert ids + (more + added) == (ids + more) + added;
      FollowsMore(ids + more, added, first, es);
      more := more + added;
    }
  }

  lemma LastVerdict(s: Store, es: seq<Event>)
    requires es != [] && forall v :: v in Run(s, es).verdicts ==> !v.Rejected()
    ensures var t := Run(s, es[..|es| - 1]);
            var last := Step(t.store, es[|es| - 1]);
            && Run(s, es).store == last.store && !last.verdict.Rejected()
            && (forall v :: v in t.verdicts ==> !v.Rejected())
  {
    hide Step;
    var t := Run(s, es[..|es| - 1]);
    var last := Step(t.store, es[|es| - 1]).verdict;
    assert Run(s, es).verdicts == t.verdicts + [last];
    assert last in Run(s, es).verdicts;
    assert forall v :: v in t.verdicts ==> v in Run(s, es).verdicts;
  }

  lemma BeforeMore(ids: seq<string>, more: seq<string>, n: nat, parent: Option<string>)
    requires Before(ids, n, parent)
    ensures Before(ids + more, n, parent)
  {
  }

  /** Events whose ids are all stored change nothing and never fault. */
  lemma {:induction false} RunKnown(s: Store, es: seq<Event>)
    requires forall e :: e in es ==> e.id in s.events
    ensures Run(s, es).store == s && forall v :: v in Run(s, es).verdicts ==> v.Duplicate? || v.Conflict?
    decreases |es|
  {
    hide Step;
    if es != [] {
      RunKnown(s, es[..|es| - 1]);
      KnownStep(s, es[|es| - 1]);
    }
  }

  lemma KnownStep(s: Store, e: Event)
    requires e.id in s.events
    ensures Step(s, e).store == s
    ensures Step(s, e).verdict == if s.events[e.id] == e then Duplicate(e.id) else Conflict(Some(e.id))
  {
  }

  lemma {:induction false} RunBeside(s: Store, session: string, ids: seq<string>, es: seq<Event>)
    requires Log(s, session, ids) && forall e :: e in es ==> e.session != Some(session)
    ensures Log(Run(s, es).store, session, ids)
    decreases |es|
  {
    hide Step, Log;
    if es != [] {
      var t := Run(s, es[..|es| - 1]).store;
      var e := es[|es| - 1];
      RunBeside(s, session, ids, es[..|es| - 1]);
      NotAcceptedUnchanged(t, e);
      if Step(t, e).verdict.Accepted? {
        AcceptedInserts(t, e);
        LogBeside(t, session, ids, e);
      }
    }
  }

  lemma WriteCases(s: Store, b: Settings, es: seq<Event>)
    ensures var t := Run(s, RedactAll(b, es));
            var a := Write(s, b, es);
            if a.reply.Written?
            then a == Answer(t.store, Written(t.verdicts)) && forall v :: v in t.verdicts ==> !v.Rejected()
            else a.store == s && exists v :: v in t.verdicts && v.Rejected() && (a.reply.Broken? <==> v.Fault?)
  {
    hide Step, Run;
    var v := Run(s, RedactAll(b, es)).verdicts;
    if FirstRejected(v).Some? {
      var k := FindRejection(v);
      assert v[k] in v;
    }
  }

  lemma WriteKnown(s: Store, b: Settings, es: seq<Event>)
    requires forall e :: e in es ==> e.id in s.events
    ensures Write(s, b, es).store == s && !Write(s, b, es).reply.Broken?
  {
    hide Write, Step, Run;
    forall e | e in RedactAll(b, es) ensures e.id in s.events {
      var i :| 0 <= i < |es| && e == RedactAll(b, es)[i];
      assert es[i] in es;
    }
    RunKnown(s, RedactAll(b, es));
    WriteCases(s, b, es);
  }

  /******* Prepared events *******/

  /** A prepared event says what the raw one says, apart from redaction and time. */
  predicate Says(b: Settings, raw: Event, p: Event) {
    && p.id == raw.id && p.session == raw.session && p.seqNo == raw.seqNo && p.parent == raw.parent
    && p.task == raw.task && p.project == raw.project && p.kind == raw.kind
    && p.externalId == raw.externalId && p.agent == raw.agent && p.adapter == raw.adapter && p.rest == raw.rest
    && p.payload == Each(b.redactor, raw.payload) && p.context == Each(b.redactor, raw.context)
  }

  lemma PrepareSays(s: Store, b: Settings, raw: Event)
    ensures Prepare(s, b, raw).Some? ==> Says(b, raw, Prepare(s, b, raw).value)
    ensures Prepare(s, b, raw).Some? && raw.id in s.events ==> Prepare(s, b, raw).value == s.events[raw.id]
  {
    if raw.id in s.events && Prepare(s, b, raw).Some? {
      var x := s.events[raw.id];
      var y := Redact(b.redactor, raw.(occurredAt := x.occurredAt));
      assert Comparable(y) == Comparable(x);
      assert Comparable(y).id == y.id && Comparable(x).id == x.id;
      assert Comparable(y).session == y.session && Comparable(x).session == x.session;
      assert Comparable(y).seqNo == y.seqNo && Comparable(x).seqNo == x.seqNo;
      assert Comparable(y).parent == y.parent && Comparable(x).parent == x.parent;
      assert Comparable(y).payload == y.payload && Comparable(x).payload == x.payload;
      assert Comparable(y).context == y.context && Comparable(x).context == x.context;
      assert Comparable(y).kind == y.kind && Comparable(x).kind == x.kind;
      assert Comparable(y).task == y.task && Comparable(x).task == x.task;
      assert Comparable(y).project == y.project && Comparable(x).project == x.project;
      assert Comparable(y).externalId == y.externalId && Comparable(x).externalId == x.externalId;
      assert Comparable(y).agent == y.agent && Comparable(x).agent == x.agent;
      assert Comparable(y).adapter == y.adapter && Comparable(x).adapter == x.adapter;
      assert Comparable(y).rest == y.rest && Comparable(x).rest == x.rest;
    }
  }

  lemma {:induction false} PrepareAllAt(s: Store, b: Settings, es: seq<Event>)
    ensures PrepareAll(s, b, es).Some? <==> forall e :: e in es ==> Prepare(s, b, e).Some?
    ensures PrepareAll(s, b, es).Some? ==>
              |PrepareAll(s, b, es).value| == |es|
              && forall i :: 0 <= i < |es| ==> Prepare(s, b, es[i]) == Some(PrepareAll(s, b, es).value[i])
    decreases |es|
  {
    hide Prepare;
    if es != [] {
      var before, last := es[..|es| - 1], es[|es| - 1];
      PrepareAllAt(s, b, before);
      assert es == before + [last];
      assert last in es;
      assert forall e :: e in es <==> e in before || e == last;
    }
  }

  /** Preparing and redacting keep the numbering, the links and the session. */
  lemma PreparedLinked(s: Store, b: Settings, raw: seq<Event>, first: nat, parent: Option<string>, session: string)
    requires PrepareAll(s, b, raw).Some? && Linked(raw, first, parent)
    requires forall e :: e in raw ==> e.session == Some(session)
    ensures var p := PrepareAll(s, b, raw).value;
            && |p| == |raw| && IdSeq(p) == IdSeq(raw) && IdSeq(RedactAll(b, p)) == IdSeq(raw)
            && Linked(RedactAll(b, p), first, parent)
            && (forall e :: e in RedactAll(b, p) ==> e.session == Some(session))
  {
    hide Prepare, Says, PrepareAll;
    PrepareAllAt(s, b, raw);
    var p := PrepareAll(s, b, raw).value;
    forall i | 0 <= i < |raw|
      ensures p[i].id == raw[i].id && p[i].session == Some(session) && p[i].seqNo == raw[i].seqNo
              && p[i].parent == raw[i].parent
    {
      assert raw[i] in raw;
      PrepareSays(s, b, raw[i]);
      SaysFields(b, raw[i], p[i]);
    }
    SameShape(raw, RedactAll(b, p), first, parent);
    forall e | e in RedactAll(b, p) ensures e.session == Some(session) {
      var i :| 0 <= i < |raw| && RedactAll(b, p)[i] == e;
      assert p[i].session == Some(session);
    }
  }

  lemma SameShape(a: seq<Event>, b: seq<Event>, first: nat, parent: Option<string>)
    requires |a| == |b| && Linked(a, first, parent)
    requires forall i :: 0 <= i < |a| ==> b[i].id == a[i].id && b[i].seqNo == a[i].seqNo && b[i].parent == a[i].parent
    ensures Linked(b, first, parent)
  {
    forall i | 0 < i < |b| ensures b[i].parent == Some(b[i - 1].id) {
      assert a[i].parent == Some(a[i - 1].id) && b[i - 1].id == a[i - 1].id;
    }
  }

  lemma SaysFields(b: Settings, raw: Event, p: Event)
    requires Says(b, raw, p)
    ensures p.id == raw.id && p.session == raw.session && p.seqNo == raw.seqNo && p.parent == raw.parent
  {
  }

  lemma RawAt(b: Settings, q: CaptureRequest, at: Start, i: nat)
    requires i < |Parts(q)|
    ensures |Raw(b, q, at)| == |Parts(q)|
    ensures Raw(b, q, at)[i] == RawEvent(b, q, at, i)
    ensures Raw(b, q, at)[i].id == PartId(b, q, Parts(q)[i])
    ensures Raw(b, q, at)[i].seqNo == at.seqNo + i
    ensures Raw(b, q, at)[i].session == Some(q.session) && Raw(b, q, at)[i].task == q.task
    ensures i == 0 ==> Raw(b, q, at)[i].parent == at.parent
    ensures i > 0 ==> Raw(b, q, at)[i].parent == Some(PartId(b, q, Parts(q)[i - 1]))
  {
    hide Parts, PartId, FullPayload, OrElse;
  }

  lemma RawLinked(b: Settings, q: CaptureRequest, at: Start)
    ensures Linked(Raw(b, q, at), at.seqNo, at.parent)
    ensures forall e :: e in Raw(b, q, at) ==> e.session == Some(q.session) && e.task == q.task
  {
    hide Parts, PartId, FullPayload, OrElse, Raw;
    var raw := Raw(b, q, at);
    RawSize(b, q, at);
    forall i | 0 <= i < |raw|
      ensures raw[i].seqNo == at.seqNo + i && raw[i].session == Some(q.session) && raw[i].task == q.task
      ensures i == 0 ==> raw[i].parent == at.parent
    {
      RawAt(b, q, at, i);
    }
    forall i | 0 < i < |raw| ensures raw[i].parent == Some(raw[i - 1].id) {
      RawAt(b, q, at, i);
      RawAt(b, q, at, i - 1);
    }
  }

  lemma RawSize(b: Settings, q: CaptureRequest, at: Start)
    ensures |Raw(b, q, at)| == |Parts(q)|
  {
    hide Parts, PartId, FullPayload, OrElse;
  }

  /** Some extension of `ids` lists the session. */
  ghost predicate Longer(s: Store, session: string, ids: seq<string>) {
    exists more :: Log(s, session, ids + more)
  }

  lemma LongerSame(s: Store, session: string, ids: seq<string>)
    requires Log(s, session, ids)
    ensures Longer(s, session, ids)
  {
    assert ids + [] == ids;
  }

  /******* Where a write starts *******/

  /** The first `n` events of a log, and how many they are. */
  lemma {:induction false} LogHead(s: Store, session: string, ids: seq<string>, n: nat) returns (head: set<string>)
    requires Log(s, session, ids) && n <= |ids|
    ensures head == (set id | id in ids[..n]) && |head| == n
    ensures forall id :: id in ids && s.events[id].seqNo < n <==> id in head
    decreases n
  {
    if n == 0 {
      head := {};
    } else {
      head := LogHead(s, session, ids, n - 1);
      assert ids[..n] == ids[..n - 1] + [ids[n - 1]];
      assert s.events[ids[n - 1]].seqNo == n - 1;
      head := head + {ids[n - 1]};
    }
  }

  /** A session belongs to one task, so a timeline holds the first 5000 events of the
      log, or nothing for a task that does not own the session. */
  lemma TimelineOfLog(s: Store, task: string, session: string, ids: seq<string>)
    requires Inv(s) && Log(s, session, ids)
    ensures var line := Timeline(s, task, session);
            if ids != [] && s.events[ids[0]].task == task
            then line == set id | id in ids[..Min(|ids|, 5000)]
            else line == {}
  {
    hide Inv;
    var all := SessionIds(s, task, session);
    forall id | id in all ensures s.events[id].task == s.events[ids[0]].task {
      SessionHasOneTask(s, id, ids[0], session);
    }
    if ids != [] && s.events[ids[0]].task == task {
      forall id | id in ids ensures id in all {
        SessionHasOneTask(s, ids[0], id, session);
      }
      assert all == set id | id in ids;
      forall id | id in all ensures id in Timeline(s, task, session) <==> s.events[id].seqNo < 5000 {
        var i :| 0 <= i < |ids| && ids[i] == id;
        var head := LogHead(s, session, ids, i);
        assert head == set o | o in all && s.events[o].seqNo < i;
      }
      var head := LogHead(s, session, ids, Min(|ids|, 5000));
    }
  }

  lemma SessionHasOneTask(s: Store, a: string, b: string, session: string)
    requires Inv(s) && a in s.events && b in s.events
    requires s.events[a].session == Some(session) && s.events[b].session == Some(session)
    ensures s.events[a].task == s.events[b].task
  {
    assert OwnedBy(s, s.events[a]) && OwnedBy(s, s.events[b]);
  }

  /** Every write links on to the log: at its end or after event 4999, or at 0 for a
      task that does not own the session. */
  lemma NextOfLog(s: Store, task: string, session: string, ids: seq<string>, time: int)
    requires Inv(s) && Log(s, session, ids)
    ensures var at := Next(s, task, session, time);
            && Before(ids, at.seqNo, at.parent)
            && (ids != [] && s.events[ids[0]].task == task ==> at.seqNo == Min(|ids|, 5000))
  {
    hide Timeline, Inv;
    TimelineOfLog(s, task, session, ids);
    var line := Timeline(s, task, session);
    var n := Min(|ids|, 5000);
    if ids != [] && s.events[ids[0]].task == task {
      assert ids[..n][n - 1] in line;
      var last := Last(s, line);
      var i :| 0 <= i < n && ids[..n][i] == last;
      assert s.events[ids[n - 1]].seqNo == n - 1 && s.events[ids[i]].seqNo == i;
      KeyIsId(s, last);
    }
  }

  /** Two events of one session never share a position. */
  lemma SlotUnique(s: Store, a: string, b: string)
    requires Inv(s) && a in s.events && b in s.events && s.events[a].session.Some?
    requires s.events[a].session == s.events[b].session && s.events[a].seqNo == s.events[b].seqNo
    ensures a == b
  {
    assert SameSlot(s.events[a], s.events[b]);
  }

  lemma TimelineSession(s: Store, task: string, session: string)
    ensures Timeline(s, task, session) <= s.events.Keys
    ensures forall id :: id in Timeline(s, task, session) ==> s.events[id].session == Some(session)
  {
  }

  lemma KeyIsId(s: Store, id: string)
    requires Inv(s) && id in s.events
    ensures s.events[id].id == id
  {
  }

  /** A write linked on to the log leaves the log or an extension of it. */
  lemma WriteAlong(s: Store, b: Settings, session: string, ids: seq<string>, raw: seq<Event>,
                   first: nat, parent: Option<string>)
    requires Inv(s) && Log(s, session, ids) && PrepareAll(s, b, raw).Some?
    requires Before(ids, first, parent) && Linked(raw, first, parent)
    requires forall e :: e in raw ==> e.session == Some(session)
    ensures Longer(Write(s, b, PrepareAll(s, b, raw).value).store, session, ids)
  {
    hide Inv, Log, Write, PrepareAll, Run, Linked, Before, RedactAll;
    var p := PrepareAll(s, b, raw).value;
    PreparedLinked(s, b, raw, first, parent, session);
    WriteCases(s, b, p);
    if Write(s, b, p).reply.Written? {
      var more := RunAlong(s, session, ids, RedactAll(b, p), first, parent);
    } else {
      LongerSame(s, session, ids);
    }
  }

  /** A first event that no state accepts leaves the store alone. */
  lemma WriteRefusedFirst(s: Store, b: Settings, es: seq<Event>)
    requires es != [] && Step(s, Redact(b.redactor, es[0])).verdict.Rejected()
    ensures Write(s, b, es).store == s && !Write(s, b, es).reply.Written?
  {
    hide Write, Step;
    var red := RedactAll(b, es);
    RunAt(s, red, [], 0);
    assert red[..0] == [];
    assert Run(s, red).verdicts[0] in Run(s, red).verdicts;
    WriteCases(s, b, es);
  }

  /******* The session log over every bridge call *******/

  lemma FiledKnown(s: Store, b: Settings, q: CaptureRequest, raw: seq<Event>)
    requires PrepareAll(s, b, raw).Some? && IdsOf(PrepareAll(s, b, raw).value) == Filed(s, q)
    ensures forall e :: e in PrepareAll(s, b, raw).value ==> e.id in s.events
  {
    forall e | e in PrepareAll(s, b, raw).value ensures e.id in s.events {
      assert e.id in IdsOf(PrepareAll(s, b, raw).value);
    }
  }

  lemma CaptureKeepsLog(s: Store, b: Settings, q: CaptureRequest, time: int, ids: seq<string>)
    requires Inv(s) && Log(s, q.session, ids)
    ensures Longer(Capture(s, b, q, time).store, q.session, ids)
  {
    hide Inv, Log, Write, PrepareAll, Raw, Next, Longer, Linked, Before;
    var at := StartOf(s, q, time);
    var raw := Raw(b, q, at);
    LongerSame(s, q.session, ids);
    if PrepareAll(s, b, raw).Some? {
      if Filed(s, q) != {} {
        if IdsOf(PrepareAll(s, b, raw).value) == Filed(s, q) {
          FiledKnown(s, b, q, raw);
          WriteKnown(s, b, PrepareAll(s, b, raw).value);
        }
      } else {
        NextOfLog(s, q.task, q.session, ids, time);
        RawLinked(b, q, at);
        WriteAlong(s, b, q.session, ids, raw, at.seqNo, at.parent);
      }
    }
  }

  lemma EdgeKeepsLog(s: Store, b: Settings, e: Event, session: string, ids: seq<string>)
    requires Inv(s) && Log(s, session, ids) && e.session == Some(session)
    requires e.id in s.events || Before(ids, e.seqNo, e.parent)
    ensures Longer(WriteOne(s, b, e).store, session, ids)
  {
    hide Inv, Log, Write, Longer, PrepareAll, Prepare;
    LongerSame(s, session, ids);
    var p := Prepare(s, b, e);
    if p.Some? {
      if e.id in s.events {
        PrepareSays(s, b, e);
        WriteKnown(s, b, [p.value]);
      } else {
        PrepareSingle(s, b, e);
        WriteAlong(s, b, session, ids, [e], e.seqNo, e.parent);
      }
    }
  }

  lemma PrepareSingle(s: Store, b: Settings, e: Event)
    ensures Prepare(s, b, e).Some? ==> PrepareAll(s, b, [e]) == Some([Prepare(s, b, e).value])
  {
    hide Prepare;
    var es := [e];
    assert es[..|es| - 1] == [] && es[|es| - 1] == e;
    assert PrepareAll(s, b, es[..|es| - 1]) == Some([]);
    if Prepare(s, b, e).Some? {
      assert [] + [Prepare(s, b, e).value] == [Prepare(s, b, e).value];
    }
  }

  lemma BeginKeepsLog(s: Store, b: Settings, q: EdgeRequest, ids: seq<string>)
    requires Inv(s) && Log(s, q.session, ids)
    ensures Longer(Begin(s, b, q).store, q.session, ids)
  {
    hide Inv, Log, WriteOne, Longer;
    EdgeKeepsLog(s, b, EdgeEvent(b, q, SessionStarted, "started", Start(0, None, map[], q.time)), q.session, ids);
  }

  lemma FinishKeepsLog(s: Store, b: Settings, q: EdgeRequest, ids: seq<string>)
    requires Inv(s) && Log(s, q.session, ids)
    ensures Longer(Finish(s, b, q).store, q.session, ids)
  {
    hide Inv, Log, WriteOne, Longer, Next;
    NextOfLog(s, q.task, q.session, ids, q.time);
    EdgeKeepsLog(s, b, EdgeEvent(b, q, SessionEnded, "finished", FinishStart(s, b, q)), q.session, ids);
  }

  /******* Runs of bridge calls *******/

  /** A bridge call, or events that reach the store some other way. */
  datatype Call =
    | DoBegin(edge: EdgeRequest)
    | DoCapture(request: CaptureRequest, time: int)
    | DoFinish(edge: EdgeRequest)
    | DoIngest(events: seq<Event>)

  ghost function Do(s: Store, b: Settings, c: Call): Store {
    match c
    case DoBegin(q) => Begin(s, b, q).store
    case DoCapture(q, time) => Capture(s, b, q, time).store
    case DoFinish(q) => Finish(s, b, q).store
    case DoIngest(es) => Run(s, es).store
  }

  /** The session is written only through the bridge. */
  predicate BridgeOnly(session: string, c: Call) {
    c.DoIngest? ==> forall e :: e in c.events ==> e.session != Some(session)
  }

  lemma DoInv(s: Store, b: Settings, c: Call)
    requires Inv(s)
    ensures Inv(Do(s, b, c)) && Grows(s, Do(s, b, c))
  {
    hide Inv, Step, Grows, Run, Prepare, PrepareAll, Raw, StartOf, FinishStart, EdgeEvent, Filed, IdsOf;
    GrowsReflexive(s);
    forall es ensures Inv(Write(s, b, es).store) && Grows(s, Write(s, b, es).store) {
      RunInv(s, RedactAll(b, es));
      RunGrows(s, RedactAll(b, es));
      WriteCases(s, b, es);
    }
    if c.DoIngest? {
      RunInv(s, c.events);
      RunGrows(s, c.events);
    }
  }

  /** Another session's write leaves this one's log alone. */
  lemma WriteBeside(s: Store, b: Settings, session: string, ids: seq<string>, raw: seq<Event>, other: string)
    requires Log(s, session, ids) && PrepareAll(s, b, raw).Some? && other != session
    requires forall e :: e in raw ==> e.session == Some(other)
    ensures Log(Write(s, b, PrepareAll(s, b, raw).value).store, session, ids)
  {
    hide Log, Write, PrepareAll, Run;
    var p := PrepareAll(s, b, raw).value;
    PrepareAllAt(s, b, raw);
    forall e | e in RedactAll(b, p) ensures e.session != Some(session) {
      var i :| 0 <= i < |p| && RedactAll(b, p)[i] == e;
      PrepareSays(s, b, raw[i]);
      assert raw[i] in raw;
    }
    WriteCases(s, b, p);
    RunBeside(s, session, ids, RedactAll(b, p));
  }

  lemma EdgeBeside(s: Store, b: Settings, session: string, ids: seq<string>, e: Event, other: string)
    requires Log(s, session, ids) && e.session == Some(other) && other != session
    ensures Log(WriteOne(s, b, e).store, session, ids)
  {
    hide Log, Write, Prepare, PrepareAll;
    if Prepare(s, b, e).Some? {
      PrepareSingle(s, b, e);
      WriteBeside(s, b, session, ids, [e], other);
    }
  }

  lemma BeginBeside(s: Store, b: Settings, session: string, ids: seq<string>, q: EdgeRequest)
    requires Log(s, session, ids) && q.session != session
    ensures Log(Begin(s, b, q).store, session, ids)
  {
    hide Log, WriteOne;
    EdgeBeside(s, b, session, ids, EdgeEvent(b, q, SessionStarted, "started", Start(0, None, map[], q.time)),
      q.session);
  }

  lemma FinishBeside(s: Store, b: Settings, session: string, ids: seq<string>, q: EdgeRequest)
    requires Log(s, session, ids) && q.session != session
    ensures Log(Finish(s, b, q).store, session, ids)
  {
    hide Log, WriteOne, FinishStart;
    EdgeBeside(s, b, session, ids, EdgeEvent(b, q, SessionEnded, "finished", FinishStart(s, b, q)), q.session);
  }

  lemma CaptureBeside(s: Store, b: Settings, session: string, ids: seq<string>, q: CaptureRequest, time: int)
    requires Log(s, session, ids) && q.session != session
    ensures Log(Capture(s, b, q, time).store, session, ids)
  {
    hide Log, Write, PrepareAll, Raw, StartOf, Filed, IdsOf;
    var raw := Raw(b, q, StartOf(s, q, time));
    RawLinked(b, q, StartOf(s, q, time));
    if PrepareAll(s, b, raw).Some? {
      WriteBeside(s, b, session, ids, raw, q.session);
    }
  }

  lemma CallKeepsLog(s: Store, b: Settings, c: Call, session: string, ids: seq<string>)
    requires Inv(s) && Log(s, session, ids) && BridgeOnly(session, c)
    ensures Longer(Do(s, b, c), session, ids)
  {
    hide Inv, Log, Longer, Begin, Capture, Finish, FinishStart;
    match c
    case DoBegin(q) =>
      if q.session == session {
        BeginKeepsLog(s, b, q, ids);
      } else {
        BeginBeside(s, b, session, ids, q);
        LongerSame(Begin(s, b, q).store, session, ids);
      }
    case DoCapture(q, time) =>
      if q.session == session {
        CaptureKeepsLog(s, b, q, time, ids);
      } else {
        CaptureBeside(s, b, session, ids, q, time);
        LongerSame(Capture(s, b, q, time).store, session, ids);
      }
    case DoFinish(q) =>
      if q.session == session {
        FinishKeepsLog(s, b, q, ids);
      } else {
        FinishBeside(s, b, session, ids, q);
        LongerSame(Finish(s, b, q).store, session, ids);
      }
    case DoIngest(es) =>
      RunBeside(s, session, ids, es);
      LongerSame(Run(s, es).store, session, ids);
  }

  ghost function DoAll(s: Store, b: Settings, calls: seq<Call>): Store
    decreases |calls|
  {
    if calls == [] then s else Do(DoAll(s, b, calls[..|calls| - 1]), b, calls[|calls| - 1])
  }

  /** The session theorem: whatever start, capture and finish calls are made on any
      sessions and whatever else is ingested beside this one, accepted or refused, the
      session stays numbered 0..n-1 with every event's parent the one before, and a
      log only ever grows at its end. */
  lemma {:induction false} SessionLinear(s: Store, b: Settings, session: string, ids: seq<string>, calls: seq<Call>)
    requires Inv(s) && Log(s, session, ids)
    requires forall c :: c in calls ==> BridgeOnly(session, c)
    ensures Inv(DoAll(s, b, calls)) && Longer(DoAll(s, b, calls), session, ids)
    decreases |calls|
  {
    hide Inv, Log, Do, BridgeOnly;
    if calls == [] {
      LongerSame(s, session, ids);
    } else {
      var before := calls[..|calls| - 1];
      SessionLinear(s, b, session, ids, before);
      var t := DoAll(s, b, before);
      var more :| Log(t, session, ids + more);
      DoInv(t, b, calls[|calls| - 1]);
      CallKeepsLog(t, b, calls[|calls| - 1], session, ids + more);
      var next :| Log(DoAll(s, b, calls), session, ids + more + next);
      assert ids + more + next == ids + (more + next);
    }
  }

  /** Beyond 5000 events the bridge reads only the first 5000, so every new capture
      asks for a position that is taken: it is refused, for good. */
  lemma FullSessionRefuses(s: Store, b: Settings, q: CaptureRequest, time: int, ids: seq<string>)
    requires Inv(s) && Log(s, q.session, ids) && |ids| > 5000 && s.events[ids[0]].task == q.task
    requires Filed(s, q) == {} && Parts(q) != [] && PartId(b, q, Parts(q)[0]) !in s.events
    ensures Capture(s, b, q, time).store == s && !Capture(s, b, q, time).reply.Written?
  {
    hide Inv, Write, PrepareAll, Raw, Parts, Step, Filed, Next;
    var at := Next(s, q.task, q.session, time);
    NextOfLog(s, q.task, q.session, ids, time);
    var raw := Raw(b, q, at);
    if PrepareAll(s, b, raw).Some? {
      RawSize(b, q, at);
      RawAt(b, q, at, 0);
      PrepareAllAt(s, b, raw);
      var p := PrepareAll(s, b, raw).value;
      PrepareSays(s, b, raw[0]);
      assert raw[0] in raw;
      TakenRejected(s, q.session, ids, Redact(b.redactor, p[0]));
      WriteRefusedFirst(s, b, p);
    }
  }

  lemma TakenRejected(s: Store, session: string, ids: seq<string>, e: Event)
    requires Inv(s) && Log(s, session, ids) && e.session == Some(session) && e.seqNo < |ids| && e.id !in s.events
    ensures Step(s, e).verdict.Rejected()
  {
    hide Step, Inv;
    VerdictExact(s, e);
    KeyIsId(s, ids[e.seqNo]);
    assert Collides(s.events[ids[e.seqNo]], e);
  }

  /******* A fresh capture is written *******/

  /** Everything but the position lets the event in: its identities are new, and its task,
      repository and session are its own or nobody's. */
  ghost predicate Free(s: Store, e: Event) {
    && e.session != Some("") && e.id !in s.events
    && (forall id :: id in s.events ==> s.events[id].id != e.id && !SameExternal(s.events[id], e))
    && !TaskTaken(s, e) && !RepoTaken(s, e) && !RepoHeld(s, e) && !SessionTaken(s, e)
  }

  /** Two events that name the same project, task, session, agent and context. */
  predicate Alike(a: Event, e: Event) {
    && a.project == e.project && a.task == e.task && a.session == e.session && a.context == e.context
    && a.agent == e.agent && a.adapter == e.adapter
  }

  predicate Apart(a: Event, e: Event) { a.id != e.id && !SameExternal(a, e) && !SameSlot(a, e) }

  ghost predicate Open(s: Store, e: Event) { !Barred(s, e) && e.id !in s.events }

  /** An event let in keeps the door open for its likes. */
  lemma StillOpen(s: Store, a: Event, e: Event)
    requires Inv(s) && Open(s, a) && Open(s, e) && Alike(a, e) && Apart(a, e)
    ensures Open(Step(s, a).store, e) && Step(s, a).verdict.Accepted?
  {
    hide Step, Inv, Insert, Barred, Grows;
    VerdictExact(s, a);
    assert !Stored(s, a);
    AcceptedInserts(s, a);
    InsertKeepsOpen(s, a, e);
  }

  lemma InsertKeepsOpen(s: Store, a: Event, e: Event)
    requires Open(s, a) && Open(s, e) && Alike(a, e) && Apart(a, e)
    ensures Open(Insert(s, a), e)
  {
    hide TouchProject, CloseSession, TouchSession, TouchRepo, TouchTask;
    var t := Insert(s, a);
    assert t.events == s.events[a.id := a];
    assert !TaskTaken(t, e) by { TaskKeepsOpen(s, a, e); }
    assert !RepoTaken(t, e) && !RepoHeld(t, e) by { RepoKeepsOpen(s, a, e); }
    assert !SessionTaken(t, e) by { SessionKeepsOpen(s, a, e); }
  }

  lemma TaskKeepsOpen(s: Store, a: Event, e: Event)
    requires Alike(a, e)
    ensures !TaskTaken(Insert(s, a), e)
  {
  }

  lemma RepoKeepsOpen(s: Store, a: Event, e: Event)
    requires Alike(a, e) && !RepoTaken(s, e) && !RepoHeld(s, e)
    ensures !RepoTaken(Insert(s, a), e) && !RepoHeld(Insert(s, a), e)
  {
    assert RepoId(a) == RepoId(e) && RepoRoot(a) == RepoRoot(e);
    assert Insert(s, a).repos == TouchRepo(s.repos, a);
  }

  lemma SessionKeepsOpen(s: Store, a: Event, e: Event)
    requires Alike(a, e)
    ensures !SessionTaken(Insert(s, a), e)
  {
    assert Insert(s, a).sessions == Seat(s.sessions, a);
  }

  /** Open events that are alike and apart are accepted one after the other. */
  lemma {:induction false} RunOpen(s: Store, es: seq<Event>, e: Event)
    requires Inv(s) && Open(s, e) && forall x :: x in es ==> Open(s, x) && Alike(x, e) && Apart(x, e)
    requires forall i, j :: 0 <= i < j < |es| ==> Apart(es[i], es[j]) && Alike(es[i], es[j])
    ensures forall v :: v in Run(s, es).verdicts ==> v.Accepted?
    ensures Open(Run(s, es).store, e)
    decreases |es|
  {
    hide Step, Inv, Open, Alike, Apart;
    if es != [] {
      var before, a := es[..|es| - 1], es[|es| - 1];
      assert a in es && forall x :: x in before ==> x in es;
      forall x | x in before ensures Alike(x, a) && Apart(x, a) {
        var i :| 0 <= i < |before| && before[i] == x;
        assert es[i] == x;
      }
      RunOpen(s, before, a);
      RunOpen(s, before, e);
      RunInv(s, before);
      StillOpen(Run(s, before).store, a, e);
    }
  }

  /** The ids a capture gives its events, in order. */
  function PartIdSeq(b: Settings, q: CaptureRequest): (ids: seq<string>)
    ensures |ids| == |Parts(q)|
  {
    seq(|Parts(q)|, i requires 0 <= i < |Parts(q)| => PartId(b, q, Parts(q)[i]))
  }

  /** What a first capture hands to the store. */
  function Filing(b: Settings, q: CaptureRequest, at: Start, i: nat): Event
    requires i < |Parts(q)|
  {
    Redact(b.redactor, Redact(b.redactor, RawEvent(b, q, at, i)))
  }

  lemma FilingFields(b: Settings, q: CaptureRequest, at: Start, i: nat)
    requires i < |Parts(q)|
    ensures var e := Filing(b, q, at, i);
            && e.id == PartId(b, q, Parts(q)[i])
            && e.id == b.eventId(q.session, q.captureId + "-" + Parts(q)[i].suffix)
            && e.externalId == Some(e.id) && e.seqNo == at.seqNo + i
            && e.session == Some(q.session) && e.task == q.task && e.project == q.project
            && e.agent == OrElse(q.context, "agent_id", "codex")
            && e.adapter == OrElse(q.context, "adapter", "manual-skill")
            && e.context == Each(b.redactor, Each(b.redactor, at.context + q.context))
            && e.occurredAt == at.time && e.rest == q.rest && e.kind == Parts(q)[i].kind
            && e.parent == (if i == 0 then at.parent else Some(PartId(b, q, Parts(q)[i - 1])))
  {
    hide Parts, FullPayload, OrElse, Each, Flagged;
  }

  /** A capture of new parts is written as its filings. */
  lemma CaptureFiles(s: Store, b: Settings, q: CaptureRequest, time: int)
    requires Filed(s, q) == {} && forall i :: 0 <= i < |Parts(q)| ==> PartId(b, q, Parts(q)[i]) !in s.events
    ensures var at := StartOf(s, q, time);
            exists es :: |es| == |Parts(q)| && (forall i :: 0 <= i < |es| ==> es[i] == Filing(b, q, at, i))
                         && Capture(s, b, q, time) ==
                            match FirstRejected(Run(s, es).verdicts)
                            case None => Answer(Run(s, es).store, Written(Run(s, es).verdicts))
                            case Some(v) => Answer(s, if v.Fault? then Broken else Refused)
  {
    hide Parts, PartId, Filed, StartOf, Redact, Step, Run, PrepareAll, RawEvent, Raw;
    var at := StartOf(s, q, time);
    var raw := Raw(b, q, at);
    RawSize(b, q, at);
    forall i | 0 <= i < |raw| ensures raw[i] == RawEvent(b, q, at, i) && raw[i].id !in s.events {
      RawAt(b, q, at, i);
    }
    PrepareAllAt(s, b, raw);
    forall e | e in raw ensures Prepare(s, b, e).Some? {
      var i :| 0 <= i < |raw| && raw[i] == e;
    }
    var p := PrepareAll(s, b, raw).value;
    var es := RedactAll(b, p);
    assert forall i :: 0 <= i < |es| ==> es[i] == Filing(b, q, at, i);
  }

  /** The exact limit. A capture under a new id whose events are new and whose owners are its
      own is written exactly when the session holds at most 5000 events; it is then accepted
      whole and the log continues with its events in order. */
  lemma CaptureLimitExactly(s: Store, b: Settings, q: CaptureRequest, time: int, ids: seq<string>)
    requires Inv(s) && Log(s, q.session, ids) && Parts(q) != [] && Filed(s, q) == {}
    requires forall i, j :: 0 <= i < j < |Parts(q)| ==> PartIdSeq(b, q)[i] != PartIdSeq(b, q)[j]
    requires forall i :: 0 <= i < |Parts(q)| ==> Free(s, Filing(b, q, StartOf(s, q, time), i))
    ensures var a := Capture(s, b, q, time);
            && (a.reply.Written? <==> |ids| <= 5000)
            && (|ids| <= 5000 ==> (forall v :: v in a.reply.verdicts ==> v.Accepted?)
                                  && Log(a.store, q.session, ids + PartIdSeq(b, q)))
            && (|ids| > 5000 ==> a.store == s)
  {
    hide Inv, Log, Parts, PartId, Filing, Filed, StartOf, Free, Capture, Run, Next;
    var at := StartOf(s, q, time);
    forall i | 0 <= i < |Parts(q)|
      ensures PartId(b, q, Parts(q)[i]) !in s.events && Filing(b, q, at, i).id !in s.events
    {
      FilingFields(b, q, at, i);
      FreeIsNew(s, Filing(b, q, at, i));
    }
    OwnSession(s, b, q, at, ids);
    StartsAtNext(s, q, time);
    NextOfLog(s, q.task, q.session, ids, time);
    if |ids| > 5000 {
      FullSessionRefuses(s, b, q, time, ids);
    } else {
      CaptureFiles(s, b, q, time);
      var es :| |es| == |Parts(q)| && (forall i :: 0 <= i < |es| ==> es[i] == Filing(b, q, at, i))
                && Capture(s, b, q, time) ==
                   match FirstRejected(Run(s, es).verdicts)
                   case None => Answer(Run(s, es).store, Written(Run(s, es).verdicts))
                   case Some(v) => Answer(s, if v.Fault? then Broken else Refused);
      FilingsAccepted(s, b, q, at, ids, es);
    }
  }

  lemma FreeIsNew(s: Store, e: Event)
    requires Free(s, e)
    ensures e.id !in s.events
  {
  }

  lemma StartsAtNext(s: Store, q: CaptureRequest, time: int)
    requires Filed(s, q) == {}
    ensures StartOf(s, q, time) == Next(s, q.task, q.session, time)
  {
    hide Filed, Next;
  }

  /** A session free to the request belongs to its task. */
  lemma OwnSession(s: Store, b: Settings, q: CaptureRequest, at: Start, ids: seq<string>)
    requires Inv(s) && Log(s, q.session, ids) && Parts(q) != [] && Free(s, Filing(b, q, at, 0))
    ensures ids != [] ==> ids[0] in s.events && s.events[ids[0]].task == q.task
  {
    hide Parts, Filing;
    FilingFields(b, q, at, 0);
    if ids != [] {
      assert OwnedBy(s, s.events[ids[0]]);
    }
  }

  lemma FilingsAccepted(s: Store, b: Settings, q: CaptureRequest, at: Start, ids: seq<string>, es: seq<Event>)
    requires Inv(s) && Log(s, q.session, ids) && Parts(q) != [] && at.seqNo == |ids| && Before(ids, |ids|, at.parent)
    requires |es| == |Parts(q)| && forall i :: 0 <= i < |es| ==> es[i] == Filing(b, q, at, i) && Free(s, es[i])
    requires forall i, j :: 0 <= i < j < |Parts(q)| ==> PartIdSeq(b, q)[i] != PartIdSeq(b, q)[j]
    ensures forall v :: v in Run(s, es).verdicts ==> v.Accepted?
    ensures FirstRejected(Run(s, es).verdicts).None?
    ensures Log(Run(s, es).store, q.session, ids + PartIdSeq(b, q))
  {
    hide Inv, Log, Parts, PartId, Filing, Free, Step, Run, Linked, OrElse;
    forall i | 0 <= i < |es|
      ensures es[i].id == PartIdSeq(b, q)[i] && Open(s, es[i]) && es[i].session == Some(q.session)
              && es[i].seqNo == at.seqNo + i
    {
      FilingFields(b, q, at, i);
      BehindTheLog(s, q.session, ids, es[i]);
    }
    forall i, j | 0 <= i < j < |es| ensures Apart(es[i], es[j]) && Alike(es[i], es[j]) {
      FilingFields(b, q, at, i);
      FilingFields(b, q, at, j);
    }
    AllAccepted(s, es);
    FilingsLinked(b, q, at, es);
    var more := RunAlong(s, q.session, ids, es, at.seqNo, at.parent);
    assert more == PartIdSeq(b, q) by {
      forall i | 0 <= i < |es| ensures more[i] == es[i].id {
        assert (ids + more)[|ids| + i] == more[i];
      }
    }
  }

  lemma AllAccepted(s: Store, es: seq<Event>)
    requires Inv(s) && es != [] && forall x :: x in es ==> Open(s, x)
    requires forall i, j :: 0 <= i < j < |es| ==> Apart(es[i], es[j]) && Alike(es[i], es[j])
    ensures forall v :: v in Run(s, es).verdicts ==> v.Accepted?
  {
    hide Inv, Open, Apart, Alike, Step, Run;
    var n := |es| - 1;
    assert es[n] in es && forall x :: x in es[..n] ==> x in es;
    RunSnoc(s, es[..n], es[n]);
    assert es[..n] + [es[n]] == es;
    forall x | x in es[..n] ensures Alike(x, es[n]) && Apart(x, es[n]) {
      var i :| 0 <= i < n && es[..n][i] == x;
    }
    RunOpen(s, es[..n], es[n]);
    RunInv(s, es[..n]);
    OpenAccepted(Run(s, es[..n]).store, es[n]);
  }

  lemma OpenAccepted(s: Store, e: Event)
    requires Inv(s) && Open(s, e)
    ensures Step(s, e).verdict.Accepted?
  {
    hide Step, Inv, Barred;
    VerdictExact(s, e);
  }

  /** Behind the end of the log every position is free. */
  lemma BehindTheLog(s: Store, session: string, ids: seq<string>, e: Event)
    requires Log(s, session, ids) && Free(s, e) && e.session == Some(session) && e.seqNo >= |ids|
    ensures Open(s, e)
  {
    forall id | id in s.events ensures !Collides(s.events[id], e) {
      if s.events[id].session == Some(session) {
        var i :| 0 <= i < |ids| && ids[i] == id;
      }
    }
  }

  lemma FilingsLinked(b: Settings, q: CaptureRequest, at: Start, es: seq<Event>)
    requires |es| == |Parts(q)| && forall i :: 0 <= i < |es| ==> es[i] == Filing(b, q, at, i)
    ensures Linked(es, at.seqNo, at.parent) && forall e :: e in es ==> e.session == Some(q.session)
  {
    hide Parts, PartId, FullPayload, OrElse, Each, Flagged;
    RawSize(b, q, at);
    RawLinked(b, q, at);
    SameShape(Raw(b, q, at), es, at.seqNo, at.parent);
  }

  /******* Reuse of a capture id *******/

  /** The identities a request gives its events. */
  function PartIds(b: Settings, q: CaptureRequest): set<string> {
    set part | part in Parts(q) :: PartId(b, q, part)
  }

  /** The stored event of a part has the part's type and redacted payload. */
  predicate SamePart(s: Store, b: Settings, q: CaptureRequest, part: Part) {
    && PartId(b, q, part) in s.events
    && s.events[PartId(b, q, part)].kind == part.kind
    && s.events[PartId(b, q, part)].payload == Each(b.redactor, FullPayload(q, part))
  }

  lemma RawIds(b: Settings, q: CaptureRequest, at: Start)
    ensures IdsOf(Raw(b, q, at)) == PartIds(b, q)
  {
    hide Parts, PartId, FullPayload, OrElse, Raw;
    var raw := Raw(b, q, at);
    RawSize(b, q, at);
    forall i | 0 <= i < |raw| ensures raw[i].id == PartId(b, q, Parts(q)[i]) {
      RawAt(b, q, at, i);
    }
    forall id | id in PartIds(b, q) ensures id in IdsOf(raw) {
      var part :| part in Parts(q) && PartId(b, q, part) == id;
      var i :| 0 <= i < |Parts(q)| && Parts(q)[i] == part;
      assert raw[i].id == id && raw[i] in raw;
    }
    forall e | e in raw ensures e.id in PartIds(b, q) {
      var i :| 0 <= i < |raw| && raw[i] == e;
      assert Parts(q)[i] in Parts(q);
    }
  }

  lemma PreparedIds(s: Store, b: Settings, raw: seq<Event>)
    requires PrepareAll(s, b, raw).Some?
    ensures IdsOf(PrepareAll(s, b, raw).value) == IdsOf(raw)
  {
    hide Prepare, PrepareAll;
    PrepareAllAt(s, b, raw);
    var p := PrepareAll(s, b, raw).value;
    forall i | 0 <= i < |raw| ensures p[i].id == raw[i].id {
      PrepareSays(s, b, raw[i]);
    }
    forall e | e in p ensures e.id in IdsOf(raw) {
      var i :| 0 <= i < |p| && p[i] == e;
      assert raw[i] in raw;
    }
    forall e | e in raw ensures e.id in IdsOf(p) {
      var i :| 0 <= i < |raw| && raw[i] == e;
      assert p[i] in p;
    }
  }

  /** A capture id already in the timeline never causes a write; unless the request
      has exactly the filed events with the filed payloads it is refused whole. */
  lemma ReuseRefused(s: Store, b: Settings, q: CaptureRequest, time: int)
    requires Filed(s, q) != {}
    ensures Capture(s, b, q, time).store == s && !Capture(s, b, q, time).reply.Broken?
    ensures PartIds(b, q) != Filed(s, q) || (exists part :: part in Parts(q) && !SamePart(s, b, q, part)) ==>
              Capture(s, b, q, time) == Answer(s, Refused)
  {
    hide Write, PrepareAll, Raw, Parts, Filed, IdsOf, PartIds;
    var raw := Raw(b, q, StartOf(s, q, time));
    RawIds(b, q, StartOf(s, q, time));
    if PrepareAll(s, b, raw).Some? {
      PreparedIds(s, b, raw);
      if PartIds(b, q) == Filed(s, q) {
        FiledKnown(s, b, q, raw);
        WriteKnown(s, b, PrepareAll(s, b, raw).value);
        forall part | part in Parts(q) ensures SamePart(s, b, q, part) {
          PartPrepared(s, b, q, time, part);
        }
      }
    }
  }

  lemma PartPrepared(s: Store, b: Settings, q: CaptureRequest, time: int, part: Part)
    requires PrepareAll(s, b, Raw(b, q, StartOf(s, q, time))).Some? && part in Parts(q)
    requires PartIds(b, q) == Filed(s, q)
    ensures SamePart(s, b, q, part)
  {
    hide Parts, Prepare, PrepareAll, StartOf, PartId, FullPayload, OrElse, Raw, Filed;
    var raw := Raw(b, q, StartOf(s, q, time));
    PrepareAllAt(s, b, raw);
    var i :| 0 <= i < |Parts(q)| && Parts(q)[i] == part;
    RawAt(b, q, StartOf(s, q, time), i);
    assert raw[i] in raw;
    PrepareSays(s, b, raw[i]);
    assert PartId(b, q, part) in Filed(s, q);
    FiledStored(s, q);
  }

  lemma FiledStored(s: Store, q: CaptureRequest)
    ensures forall id :: id in Filed(s, q) ==> id in s.events
  {
  }

  /******* The evidence of a capture *******/

  function PathsOf(parts: seq<Part>, kind: EventType): seq<string>
    decreases |parts|
  {
    if parts == [] then []
    else
      var last := parts[|parts| - 1];
      PathsOf(parts[..|parts| - 1], kind)
      + if last.kind == kind && "path" in last.payload then [last.payload["path"]] else []
  }

  function ValidationsOf(parts: seq<Part>): seq<map<string, string>>
    decreases |parts|
  {
    if parts == [] then []
    else
      var last := parts[|parts| - 1];
      ValidationsOf(parts[..|parts| - 1]) + if last.kind.ValidationRun? then [last.payload] else []
  }

  lemma {:induction false} ReadAppend(a: seq<Part>, b: seq<Part>, kind: EventType)
    ensures PathsOf(a + b, kind) == PathsOf(a, kind) + PathsOf(b, kind)
    ensures ValidationsOf(a + b) == ValidationsOf(a) + ValidationsOf(b)
    decreases |b|
  {
    if b == [] {
      assert a + b == a;
    } else {
      assert (a + b)[..|a + b| - 1] == a + b[..|b| - 1];
      ReadAppend(a, b[..|b| - 1], kind);
    }
  }

  lemma {:induction false} ReadFiles(paths: seq<string>, kind: EventType, role: string, suffix: string,
                                     asked: EventType)
    requires !kind.ValidationRun?
    ensures PathsOf(Files(paths, kind, role, suffix), asked) == if kind == asked then paths else []
    ensures ValidationsOf(Files(paths, kind, role, suffix)) == []
    decreases |paths|
  {
    hide Files;
    FilesSnoc(paths, kind, role, suffix);
    if paths != [] {
      ReadFiles(paths[..|paths| - 1], kind, role, suffix, asked);
    }
  }

  lemma FilesSnoc(paths: seq<string>, kind: EventType, role: string, suffix: string)
    ensures var parts := Files(paths, kind, role, suffix);
            && |parts| == |paths|
            && (paths != [] ==>
                  && parts[..|parts| - 1] == Files(paths[..|paths| - 1], kind, role, suffix)
                  && parts[|parts| - 1].kind == kind
                  && parts[|parts| - 1].payload == map["path" := paths[|paths| - 1], "role" := role])
  {
    hide Decimal;
  }

  lemma {:induction false} ReadRuns(parts: seq<Part>, payloads: seq<map<string, string>>, asked: EventType)
    requires |parts| == |payloads| && !asked.ValidationRun?
    requires forall i :: 0 <= i < |parts| ==> parts[i].kind.ValidationRun? && parts[i].payload == payloads[i]
    ensures PathsOf(parts, asked) == [] && ValidationsOf(parts) == payloads
    decreases |parts|
  {
    if parts != [] {
      var n := |parts| - 1;
      ReadRuns(parts[..n], payloads[..n], asked);
      assert payloads == payloads[..n] + [payloads[n]];
    }
  }

  lemma ReadOne(part: Part, asked: EventType)
    ensures PathsOf([part], asked) ==
            (if part.kind == asked && "path" in part.payload then [part.payload["path"]] else [])
    ensures ValidationsOf([part]) == if part.kind.ValidationRun? then [part.payload] else []
  {
    assert [part][..0] == [];
  }

  /** Nothing of the evidence is lost, doubled or reordered: the read files, the edited
      files and the validations of a request can be read back from its events. */
  lemma EvidenceReadBack(q: CaptureRequest)
    ensures PathsOf(Parts(q), FileRead) == q.explored
    ensures PathsOf(Parts(q), FileEdit) == q.modified
    ensures ValidationsOf(Parts(q)) == q.validations
  {
    EvidenceOfKind(q, FileRead);
    EvidenceOfKind(q, FileEdit);
  }

  /** Reading six runs of parts is reading each of them. */
  lemma ReadSix(a: seq<Part>, b: seq<Part>, c: seq<Part>, d: seq<Part>, e: seq<Part>, f: seq<Part>, asked: EventType)
    ensures PathsOf(a + b + c + d + e + f, asked) ==
            PathsOf(a, asked) + PathsOf(b, asked) + PathsOf(c, asked) + PathsOf(d, asked) + PathsOf(e, asked)
            + PathsOf(f, asked)
    ensures ValidationsOf(a + b + c + d + e + f) ==
            ValidationsOf(a) + ValidationsOf(b) + ValidationsOf(c) + ValidationsOf(d) + ValidationsOf(e)
            + ValidationsOf(f)
  {
    hide PathsOf, ValidationsOf;
    ReadAppend(a, b, asked);
    ReadAppend(a + b, c, asked);
    ReadAppend(a + b + c, d, asked);
    ReadAppend(a + b + c + d, e, asked);
    ReadAppend(a + b + c + d + e, f, asked);
  }

  lemma EvidenceOfKind(q: CaptureRequest, asked: EventType)
    requires asked.FileRead? || asked.FileEdit?
    ensures PathsOf(Parts(q), asked) == if asked.FileRead? then q.explored else q.modified
    ensures ValidationsOf(Parts(q)) == q.validations
  {
    hide Files, PathsOf, ValidationsOf, Validations, Opening, SymbolParts, Closing;
    var read, edit := Files(q.explored, FileRead, "explored", "read-"),
                      Files(q.modified, FileEdit, "modified", "edit-");
    ReadSingles(q, asked);
    ReadFiles(q.explored, FileRead, "explored", "read-", asked);
    ReadFiles(q.modified, FileEdit, "modified", "edit-", asked);
    AllValidations(q, asked);
    ReadSix(Opening(q), read, edit, SymbolParts(q), Validations(q), Closing(q), asked);
  }

  lemma AllValidations(q: CaptureRequest, asked: EventType)
    requires asked.FileRead? || asked.FileEdit?
    ensures PathsOf(Validations(q), asked) == [] && ValidationsOf(Validations(q)) == q.validations
  {
    hide PathsOf, ValidationsOf;
    ReadRuns(Validations(q), q.validations, asked);
  }

  lemma ReadSingles(q: CaptureRequest, asked: EventType)
    requires asked.FileRead? || asked.FileEdit?
    ensures PathsOf(Opening(q), asked) == PathsOf(SymbolParts(q), asked) == PathsOf(Closing(q), asked) == []
    ensures ValidationsOf(Opening(q)) == ValidationsOf(SymbolParts(q)) == ValidationsOf(Closing(q)) == []
  {
    hide Listed;
    if Opening(q) != [] {
      ReadOne(Opening(q)[0], asked);
    }
    if SymbolParts(q) != [] {
      ReadOne(SymbolParts(q)[0], asked);
    }
    if Closing(q) != [] {
      ReadOne(Closing(q)[0], asked);
    }
  }

  /** Different lists have different texts. */
  lemma {:induction false} ListedExactly(a: seq<string>, b: seq<string>)
    ensures Listed(a) == Listed(b) <==> a == b
  {
    hide Decimal;
    if a != [] && b != [] && Listed(a) == Listed(b) {
      var p, q := Decimal(|a[0]|), Decimal(|b[0]|);
      DecimalDigits(|a[0]|);
      DecimalDigits(|b[0]|);
      assert Listed(a) == p + [':'] + (a[0] + Listed(a[1..])) && Listed(b) == q + [':'] + (b[0] + Listed(b[1..]));
      SplitAt(p, a[0] + Listed(a[1..]), q, b[0] + Listed(b[1..]), ':');
      ValueOfDecimal(|a[0]|);
      ValueOfDecimal(|b[0]|);
      assert (a[0] + Listed(a[1..]))[..|a[0]|] == a[0] && (b[0] + Listed(b[1..]))[..|b[0]|] == b[0];
      assert (a[0] + Listed(a[1..]))[|a[0]|..] == Listed(a[1..]) && (b[0] + Listed(b[1..]))[|b[0]|..] == Listed(b[1..]);
      ListedExactly(a[1..], b[1..]);
      assert a == [a[0]] + a[1..] && b == [b[0]] + b[1..];
    }
  }

  /** The parts of one type, in order. */
  function OfKind(parts: seq<Part>, kind: EventType): seq<Part>
    decreases |parts|
  {
    if parts == [] then []
    else OfKind(parts[..|parts| - 1], kind) + if parts[|parts| - 1].kind == kind then [parts[|parts| - 1]] else []
  }

  lemma {:induction false} OfKindAppend(a: seq<Part>, b: seq<Part>, kind: EventType)
    ensures OfKind(a + b, kind) == OfKind(a, kind) + OfKind(b, kind)
    decreases |b|
  {
    if b == [] {
      assert a + b == a;
    } else {
      assert (a + b)[..|a + b| - 1] == a + b[..|b| - 1];
      OfKindAppend(a, b[..|b| - 1], kind);
    }
  }

  lemma LastOfKind(parts: seq<Part>, kind: EventType)
    requires parts != []
    ensures var n := |parts| - 1;
            OfKind(parts, kind) == OfKind(parts[..n], kind) + if parts[n].kind == kind then [parts[n]] else []
  {
  }

  lemma {:induction false} OfKindIn(parts: seq<Part>, kind: EventType, part: Part)
    ensures part in OfKind(parts, kind) <==> part in parts && part.kind == kind
    decreases |parts|
  {
    if parts != [] {
      var n := |parts| - 1;
      OfKindIn(parts[..n], kind, part);
      assert parts == parts[..n] + [parts[n]];
    }
  }

  lemma {:induction false} OfOneKind(parts: seq<Part>, own: EventType, kind: EventType)
    requires forall part :: part in parts ==> part.kind == own
    ensures OfKind(parts, kind) == if own == kind then parts else []
    decreases |parts|
  {
    if parts != [] {
      var n := |parts| - 1;
      assert parts[n] in parts && forall part :: part in parts[..n] ==> part in parts;
      OfOneKind(parts[..n], own, kind);
      LastOfKind(parts, kind);
      assert parts == parts[..n] + [parts[n]];
      assert OfKind(parts[..n], kind) + [] == OfKind(parts[..n], kind);
      hide OfKind;
    }
  }

  lemma OfSix(a: seq<Part>, b: seq<Part>, c: seq<Part>, d: seq<Part>, e: seq<Part>, f: seq<Part>, kind: EventType)
    ensures OfKind(a + b + c + d + e + f, kind) ==
            OfKind(a, kind) + OfKind(b, kind) + OfKind(c, kind) + OfKind(d, kind) + OfKind(e, kind) + OfKind(f, kind)
  {
    hide OfKind;
    OfKindAppend(a, b, kind);
    OfKindAppend(a + b, c, kind);
    OfKindAppend(a + b + c, d, kind);
    OfKindAppend(a + b + c + d, e, kind);
    OfKindAppend(a + b + c + d + e, f, kind);
  }

  /** The six runs of parts, each of its own type. */
  lemma SixKinds(q: CaptureRequest)
    ensures forall part :: part in Opening(q) ==> part.kind == UserMessage
    ensures forall part :: part in Files(q.explored, FileRead, "explored", "read-") ==> part.kind == FileRead
    ensures forall part :: part in Files(q.modified, FileEdit, "modified", "edit-") ==> part.kind == FileEdit
    ensures forall part :: part in SymbolParts(q) ==> part.kind == ToolResult
    ensures forall part :: part in Validations(q) ==> part.kind == ValidationRun
    ensures forall part :: part in Closing(q) ==> part.kind == AssistantMessage
  {
    hide Listed, Decimal;
  }

  /** The parts of a capture, type by type, say what the request says: the intent, every file
      with its role, the symbols with the rejected candidates, every validation, and the
      summary with the outcome; each behind its own id suffix, and nothing else. */
  lemma CaptureReadBack(q: CaptureRequest)
    ensures OfKind(Parts(q), UserMessage) ==
            if q.intent == "" then [] else [Part(UserMessage, map["text" := q.intent], "intent")]
    ensures var read := OfKind(Parts(q), FileRead);
            |read| == |q.explored|
            && forall i :: 0 <= i < |read| ==>
                 read[i] == Part(FileRead, map["path" := q.explored[i], "role" := "explored"], "read-" + Decimal(i))
    ensures var edit := OfKind(Parts(q), FileEdit);
            |edit| == |q.modified|
            && forall i :: 0 <= i < |edit| ==>
                 edit[i] == Part(FileEdit, map["path" := q.modified[i], "role" := "modified"], "edit-" + Decimal(i))
    ensures OfKind(Parts(q), ToolResult) ==
            if q.symbols == [] && q.rejected == [] then []
            else [Part(ToolResult, map["symbols" := Listed(q.symbols), "rejected_candidates" := Listed(q.rejected)],
              "symbols")]
    ensures var runs := OfKind(Parts(q), ValidationRun);
            |runs| == |q.validations|
            && forall i :: 0 <= i < |runs| ==>
                 runs[i] == Part(ValidationRun, q.validations[i], "validation-" + Decimal(i))
    ensures OfKind(Parts(q), AssistantMessage) ==
            if q.summary == "" && q.outcome == "partial" then []
            else [Part(AssistantMessage, map["text" := q.summary, "outcome" := q.outcome], "summary")]
    ensures forall part :: part in Parts(q) ==>
              part.kind in {UserMessage, FileRead, FileEdit, ToolResult, ValidationRun, AssistantMessage}
  {
    SixKinds(q);
    KindOfParts(q, UserMessage);
    KindOfParts(q, FileRead);
    KindOfParts(q, FileEdit);
    KindOfParts(q, ToolResult);
    KindOfParts(q, ValidationRun);
    KindOfParts(q, AssistantMessage);
    hide OfKind, Listed, Decimal;
  }

  lemma KindOfParts(q: CaptureRequest, kind: EventType)
    ensures OfKind(Parts(q), kind) ==
            match kind
            case UserMessage => Opening(q)
            case FileRead => Files(q.explored, FileRead, "explored", "read-")
            case FileEdit => Files(q.modified, FileEdit, "modified", "edit-")
            case ToolResult => SymbolParts(q)
            case ValidationRun => Validations(q)
            case AssistantMessage => Closing(q)
            case _ => []
  {
    hide Opening, Files, SymbolParts, Validations, Closing, OfKind;
    var read, edit := Files(q.explored, FileRead, "explored", "read-"),
      Files(q.modified, FileEdit, "modified", "edit-");
    SixKinds(q);
    OfOneKind(Opening(q), UserMessage, kind);
    OfOneKind(read, FileRead, kind);
    OfOneKind(edit, FileEdit, kind);
    OfOneKind(SymbolParts(q), ToolResult, kind);
    OfOneKind(Validations(q), ValidationRun, kind);
    OfOneKind(Closing(q), AssistantMessage, kind);
    OfSix(Opening(q), read, edit, SymbolParts(q), Validations(q), Closing(q), kind);
  }

  /** The order of the types in a capture. */
  function Stage(kind: EventType): nat {
    match kind
    case UserMessage => 0
    case FileRead => 1
    case FileEdit => 2
    case ToolResult => 3
    case ValidationRun => 4
    case _ => 5
  }

  predicate Staged(parts: seq<Part>) {
    forall i, j :: 0 <= i < j < |parts| ==> Stage(parts[i].kind) <= Stage(parts[j].kind)
  }

  lemma StagedMore(a: seq<Part>, b: seq<Part>, kind: EventType)
    requires Staged(a) && (forall part :: part in a ==> Stage(part.kind) <= Stage(kind))
    requires forall part :: part in b ==> part.kind == kind
    ensures Staged(a + b) && forall part :: part in a + b ==> Stage(part.kind) <= Stage(kind)
  {
    var all := a + b;
    forall i, j | 0 <= i < j < |all| ensures Stage(all[i].kind) <= Stage(all[j].kind) {
      assert all[i] in all && all[j] in all;
      if j >= |a| {
        assert all[j] == b[j - |a|] && b[j - |a|] in b;
        assert all[i] in a || all[i] in b;
      }
    }
  }

  /** The intent comes first, then the files read, the files edited, the symbols, the
      validations, and the summary last. */
  lemma PartsInOrder(q: CaptureRequest)
    ensures Staged(Parts(q))
  {
    hide Opening, Files, SymbolParts, Validations, Closing, Staged;
    var read, edit := Files(q.explored, FileRead, "explored", "read-"),
      Files(q.modified, FileEdit, "modified", "edit-");
    SixKinds(q);
    assert Staged([]) by { NoneStaged(); }
    StagedMore([], Opening(q), UserMessage);
    assert [] + Opening(q) == Opening(q);
    StagedMore(Opening(q), read, FileRead);
    StagedMore(Opening(q) + read, edit, FileEdit);
    StagedMore(Opening(q) + read + edit, SymbolParts(q), ToolResult);
    StagedMore(Opening(q) + read + edit + SymbolParts(q), Validations(q), ValidationRun);
    StagedMore(Opening(q) + read + edit + SymbolParts(q) + Validations(q), Closing(q), AssistantMessage);
  }

  lemma NoneStaged()
    ensures Staged([])
  {
  }

  /******* Suffixes never collide *******/

  predicate SuffixesDiffer(parts: seq<Part>) {
    forall i, j :: 0 <= i < j < |parts| ==> parts[i].suffix != parts[j].suffix
  }

  /** Every suffix starts with one of these two-letter marks. */
  predicate Marked(parts: seq<Part>, marks: set<string>) {
    forall i :: 0 <= i < |parts| ==> |parts[i].suffix| >= 2 && parts[i].suffix[..2] in marks
  }

  lemma JoinDiffer(a: seq<Part>, b: seq<Part>, marks: set<string>, more: set<string>)
    requires Marked(a, marks) && Marked(b, more) && marks !! more && SuffixesDiffer(a) && SuffixesDiffer(b)
    ensures Marked(a + b, marks + more) && SuffixesDiffer(a + b)
  {
    var all := a + b;
    forall i, j | 0 <= i < j < |all| ensures all[i].suffix != all[j].suffix {
      if i < |a| <= j {
        assert a[i].suffix[..2] in marks && b[j - |a|].suffix[..2] in more;
      } else if |a| <= i {
        assert b[i - |a|].suffix != b[j - |a|].suffix;
      }
    }
    forall i | |a| <= i < |all| ensures |all[i].suffix| >= 2 && all[i].suffix[..2] in more {
      assert all[i] == b[i - |a|];
    }
  }

  lemma NumberedDiffer(parts: seq<Part>, stem: string)
    requires |stem| >= 2 && forall i :: 0 <= i < |parts| ==> parts[i].suffix == stem + Decimal(i)
    ensures Marked(parts, {stem[..2]}) && SuffixesDiffer(parts)
  {
    hide Decimal;
    forall i, j | 0 <= i < j < |parts| ensures parts[i].suffix != parts[j].suffix {
      assert (stem + Decimal(i))[|stem|..] == Decimal(i) && (stem + Decimal(j))[|stem|..] == Decimal(j);
      ValueOfDecimal(i);
      ValueOfDecimal(j);
    }
    forall i | 0 <= i < |parts| ensures |parts[i].suffix| >= 2 && parts[i].suffix[..2] == stem[..2] {
      assert (stem + Decimal(i))[..2] == stem[..2];
    }
  }

  /** The events of one capture never share an identity suffix. */
  lemma PartsDiffer(q: CaptureRequest)
    ensures SuffixesDiffer(Parts(q))
  {
    hide Decimal, Listed, Marked, SuffixesDiffer;
    var read, edit := Files(q.explored, FileRead, "explored", "read-"),
                      Files(q.modified, FileEdit, "modified", "edit-");
    var a, s, m := Opening(q), SymbolParts(q), Closing(q);
    SinglesMarked(q);
    NumberedDiffer(read, "read-");
    NumberedDiffer(edit, "edit-");
    NumberedDiffer(Validations(q), "validation-");
    assert "read-"[..2] == "re" && "edit-"[..2] == "ed" && "validation-"[..2] == "va";
    JoinDiffer(a, read, {"in"}, {"re"});
    JoinDiffer(a + read, edit, {"in"} + {"re"}, {"ed"});
    JoinDiffer(a + read + edit, s, {"in"} + {"re"} + {"ed"}, {"sy"});
    JoinDiffer(a + read + edit + s, Validations(q), {"in"} + {"re"} + {"ed"} + {"sy"}, {"va"});
    JoinDiffer(a + read + edit + s + Validations(q), m, {"in"} + {"re"} + {"ed"} + {"sy"} + {"va"}, {"su"});
  }

  lemma SinglesMarked(q: CaptureRequest)
    ensures Marked(Opening(q), {"in"}) && Marked(SymbolParts(q), {"sy"}) && Marked(Closing(q), {"su"})
    ensures SuffixesDiffer(Opening(q)) && SuffixesDiffer(SymbolParts(q)) && SuffixesDiffer(Closing(q))
  {
    hide Listed;
    assert "intent"[..2] == "in" && "symbols"[..2] == "sy" && "summary"[..2] == "su";
  }
}
