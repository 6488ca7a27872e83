/** The Codex history importer: a gap-free session from a thread, ingested in
    chunks with a per-record fallback (src/codememory/history/codex.py). */
module History {
  import opened Base
  import opened Events
  import opened Ingest
  import opened IngestTheorems
  import opened Repository
  import opened Replay

  /** A visible item; `kind` is missing when `_item_to_event` keeps nothing of it. */
  datatype Item = Item(kind: Option<EventType>, id: string, externalId: string, occurredAt: int,
                       payload: map<string, string>)

  function Kept(items: seq<Item>): seq<Item> {
    if items == [] then []
    else Kept(items[..|items| - 1]) + (if items[|items| - 1].kind.Some? then [items[|items| - 1]] else [])
  }

  /** The event made of an item inside the thread that `base` opens. */
  function Of(base: Event, item: Item, seqNo: nat, parent: Option<string>): Event
    requires item.kind.Some?
  {
    base.(id := item.id, externalId := Some(item.externalId), kind := item.kind.value, occurredAt := item.occurredAt,
          seqNo := seqNo, parent := parent, payload := item.payload)
  }

  /** The session of one thread: an opening event, one event per kept item in
      order, a closing event, gap-free and parent-linked. */
  method ThreadEvents(base: Event, start: Item, items: seq<Item>, end: Item) returns (events: seq<Event>)
    requires start.kind == Some(SessionStarted) && end.kind == Some(SessionEnded)
    ensures Linked(events, 0, None)
    ensures |events| == |Kept(items)| + 2
    ensures events[0] == Of(base, start, 0, None)
    ensures forall i :: 0 <= i < |Kept(items)| ==>
              Kept(items)[i].kind.Some?
              && events[i + 1] == Of(base, Kept(items)[i], i + 1, Some(events[i].id))
    ensures events[|events| - 1].kind.SessionEnded? && events[|events| - 1].id == end.id
    ensures events[|events| - 1] == Of(base, end, |events| - 1, Some(events[|events| - 2].id))
    ensures AllKept(Kept(items)) && events == Session(base, start, Kept(items), end)
    ensures Tells(base, start, events[0]) && Tells(base, end, events[|events| - 1])
    ensures forall i :: 0 <= i < |Kept(items)| ==> Tells(base, Kept(items)[i], events[i + 1])
  {
    hide Of, Session, Opened, Linked, Tells;
    var seqNo, previous := 1, start.id;
    events := [Of(base, start, 0, None)];
    assert Opened(base, start, [], events) by { OpenedNone(base, start); }
    OfFields(base, start, 0, None);
    var i := 0;
    while i < |items|
      invariant i <= |items| && |events| == seqNo && Opened(base, start, Kept(items[..i]), events)
      invariant 0 < seqNo && previous == events[seqNo - 1].id
    {
      assert items[..i + 1][..i] == items[..i];
      if items[i].kind.Some? {
        OpenedMore(base, start, Kept(items[..i]), events, items[i]);
        events := events + [Of(base, items[i], seqNo, Some(previous))];
        previous := items[i].id;
        seqNo := seqNo + 1;
      } else {
        assert Kept(items[..i]) + [] == Kept(items[..i]);
      }
      i := i + 1;
    }
    assert items[..i] == items;
    OpenedClosed(base, start, Kept(items), events, end);
    events := events + [Of(base, end, seqNo, Some(previous))];
    ThreadIsSession(base, start, Kept(items), end, events);
    AllTell(base, start, Kept(items), end);
  }

  /** A thread up to its last kept item. */
  ghost predicate Opened(base: Event, start: Item, kept: seq<Item>, events: seq<Event>) {
    && start.kind.Some? && AllKept(kept) && Linked(events, 0, None)
    && |events| == |kept| + 1 && events[0] == Of(base, start, 0, None)
    && forall k :: 0 <= k < |kept| ==>
         kept[k].kind.Some? && events[k + 1] == Of(base, kept[k], k + 1, Some(events[k].id))
  }

  lemma OpenedNone(base: Event, start: Item)
    requires start.kind.Some?
    ensures Opened(base, start, [], [Of(base, start, 0, None)])
  {
  }

  lemma OpenedMore(base: Event, start: Item, kept: seq<Item>, events: seq<Event>, item: Item)
    requires Opened(base, start, kept, events) && item.kind.Some?
    ensures var e := Of(base, item, |events|, Some(events[|events| - 1].id));
            Opened(base, start, kept + [item], events + [e]) && e.id == item.id
  {
    hide Of;
    OfFields(base, item, |events|, Some(events[|events| - 1].id));
  }

  lemma OpenedClosed(base: Event, start: Item, kept: seq<Item>, events: seq<Event>, end: Item)
    requires Opened(base, start, kept, events) && end.kind.Some?
    ensures AllKept(kept)
    ensures var all := events + [Of(base, end, |events|, Some(events[|events| - 1].id))];
            && Linked(all, 0, None) && |all| == |kept| + 2 && all[0] == Of(base, start, 0, None)
            && (forall k :: 0 <= k < |kept| ==>
                  kept[k].kind.Some? && all[k + 1] == Of(base, kept[k], k + 1, Some(all[k].id)))
            && all[|all| - 1].kind == end.kind.value && all[|all| - 1].id == end.id
            && all[|all| - 1] == Of(base, end, |all| - 1, Some(all[|all| - 2].id))
  {
    hide Of;
    OfFields(base, end, |events|, Some(events[|events| - 1].id));
  }

  lemma OfFields(base: Event, item: Item, seqNo: nat, parent: Option<string>)
    requires item.kind.Some?
    ensures var e := Of(base, item, seqNo, parent);
            e.id == item.id && e.seqNo == seqNo && e.parent == parent && e.kind == item.kind.value
    ensures Tells(base, item, Of(base, item, seqNo, parent))
  {
  }

  /** The event says what the item says, in the thread that `base` opens. */
  predicate Tells(base: Event, item: Item, e: Event) {
    && item.kind == Some(e.kind) && e.id == item.id && e.externalId == Some(item.externalId)
    && e.occurredAt == item.occurredAt && e.payload == item.payload
    && e.agent == base.agent && e.adapter == base.adapter && e.project == base.project && e.task == base.task
    && e.session == base.session && e.context == base.context && e.redaction == base.redaction && e.rest == base.rest
  }

  lemma AllTell(base: Event, start: Item, kept: seq<Item>, end: Item)
    requires AllKept(kept) && start.kind.Some? && end.kind.Some?
    ensures var es := Session(base, start, kept, end);
            && Tells(base, start, es[0]) && Tells(base, end, es[|es| - 1])
            && forall i :: 0 <= i < |kept| ==> Tells(base, kept[i], es[i + 1])
  {
    hide Of, Tells;
    OfFields(base, start, 0, None);
    var es := Session(base, start, kept, end);
    forall i | 0 < i < |es| ensures Tells(base, if i <= |kept| then kept[i - 1] else end, es[i]) {
      var previous := if i == 1 then start.id else kept[i - 2].id;
      OfFields(base, if i <= |kept| then kept[i - 1] else end, i, Some(previous));
    }
    assert Tells(base, end, es[|kept| + 1]);
    forall i | 0 <= i < |kept| ensures Tells(base, kept[i], es[i + 1]) {
      assert i + 1 <= |kept|;
    }
  }

  /******* A thread imported again after it has grown *******/

  predicate AllKept(items: seq<Item>) { forall item :: item in items ==> item.kind.Some? }

  /** The i-th event of a thread. */
  function EventAt(base: Event, start: Item, kept: seq<Item>, end: Item, i: nat): Event
    requires i < |kept| + 2 && start.kind.Some? && end.kind.Some? && AllKept(kept)
  {
    if i == 0 then Of(base, start, 0, None)
    else
      var previous := if i == 1 then start.id else kept[i - 2].id;
      Of(base, if i <= |kept| then kept[i - 1] else end, i, Some(previous))
  }

  function Session(base: Event, start: Item, kept: seq<Item>, end: Item): (es: seq<Event>)
    requires start.kind.Some? && end.kind.Some? && AllKept(kept)
    ensures |es| == |kept| + 2 && forall i :: 0 <= i < |es| ==> es[i] == EventAt(base, start, kept, end, i)
  {
    seq(|kept| + 2, i requires 0 <= i < |kept| + 2 => EventAt(base, start, kept, end, i))
  }

  /** `ThreadEvents` makes these events. */
  lemma ThreadIsSession(base: Event, start: Item, kept: seq<Item>, end: Item, events: seq<Event>)
    requires start.kind.Some? && end.kind.Some? && AllKept(kept) && |events| == |kept| + 2
    requires events[0] == Of(base, start, 0, None)
    requires forall i :: 0 <= i < |kept| ==> events[i + 1] == Of(base, kept[i], i + 1, Some(events[i].id))
    requires events[|events| - 1] == Of(base, end, |events| - 1, Some(events[|events| - 2].id))
    ensures events == Session(base, start, kept, end)
  {
    forall i | 0 <= i < |events| ensures events[i] == EventAt(base, start, kept, end, i) {
      if 0 < i {
        assert i - 1 < |kept| ==> events[i - 1 + 1] == Of(base, kept[i - 1], i, Some(events[i - 1].id));
        assert 1 < i ==> events[i - 2 + 1] == Of(base, kept[i - 2], i - 1, Some(events[i - 2].id));
      }
    }
  }

  /** The whole thread is stored. */
  ghost predicate Imported(s: Store, es: seq<Event>) { forall e :: e in es ==> Stored(s, e) }

  /** How the thread `old_` may have grown into `es`: its kept items are followed by `more`, the
      closing event keeps its external id, and the new items have ids of their own. */
  predicate Grown(start: Item, kept: seq<Item>, more: seq<Item>, end: Item, close: Item) {
    && more != [] && close.externalId == end.externalId && close.id != end.id
    && (forall item :: item in more ==>
          && item.id != end.id && item.id != start.id
          && item.externalId != end.externalId && item.externalId != start.externalId)
    && (forall item, o :: item in more && o in kept ==> item.id != o.id && item.externalId != o.externalId)
  }

  /** Importing a thread again after it has grown: the items imported before are duplicates and
      the opening event is one exactly when it says the same. The first new item is always
      rejected, for the old closing event holds its position, and so is the new closing
      event, for its external id is taken; the items between them meet nothing of the old
      thread. */
  lemma GrownThread(s: Store, base: Event, start: Item, kept: seq<Item>, end: Item, open: Item, more: seq<Item>,
                    close: Item)
    requires Inv(s) && base.session.Some? && AllKept(kept + more)
    requires start.kind.Some? && end.kind.Some? && open.kind.Some? && close.kind.Some?
    requires Imported(s, Session(base, start, kept, end)) && open.id == start.id && Grown(start, kept, more, end, close)
    ensures AllKept(kept)
    ensures var old_, es := Session(base, start, kept, end), Session(base, open, kept + more, close);
            var vs := Run(s, es).verdicts;
            && (vs[0].Duplicate? <==> es[0] == old_[0]) && (vs[0].Rejected() <==> es[0] != old_[0])
            && (forall i :: 1 <= i <= |kept| ==> vs[i] == Duplicate(kept[i - 1].id))
            && vs[|kept| + 1].Rejected() && vs[|es| - 1].Rejected()
            && (forall i, j :: |kept| + 1 < i < |es| - 1 && 0 <= j < |old_| ==> !Collides(old_[j], es[i]))
  {
    hide Step, Inv, Stored, Barred, Session, Grown, Imported, Grows, EventAt;
    KeptFront(kept, more);
    var old_, es := Session(base, start, kept, end), Session(base, open, kept + more, close);
    GrownEvents(base, start, kept, end, open, more, close);
    forall i | 0 <= i < |es|
      ensures i <= |kept| ==> (Run(s, es).verdicts[i].Duplicate? <==> es[i] == old_[i])
      ensures i <= |kept| ==> (Run(s, es).verdicts[i].Rejected() <==> es[i] != old_[i])
      ensures Run(s, es).verdicts[i].Duplicate? ==> Run(s, es).verdicts[i].of == es[i].id
      ensures i == |kept| + 1 || i == |es| - 1 ==> Run(s, es).verdicts[i].Rejected()
    {
      AgainAt(s, old_, es, i, if i <= |kept| then i else |kept| + 1);
    }
    assert forall i :: 1 <= i <= |kept| ==> es[i] == old_[i] && es[i].id == kept[i - 1].id;
  }

  /** The verdict on an event that shares its id with a stored one, or collides with it. */
  lemma AgainAt(s: Store, old_: seq<Event>, es: seq<Event>, i: nat, j: nat)
    requires Inv(s) && Imported(s, old_) && i < |es| && j < |old_|
    ensures var v := Run(s, es).verdicts[i];
            && (old_[j].id == es[i].id ==>
                  (v.Duplicate? <==> es[i] == old_[j]) && (v.Rejected() <==> es[i] != old_[j]))
            && (Collides(old_[j], es[i]) ==> v.Rejected())
            && (v.Duplicate? ==> v.of == es[i].id)
  {
    hide Step, Inv, Stored, Barred, Grows;
    var t := Run(s, es[..i]).store;
    RunAt(s, es, [], i);
    RunInv(s, es[..i]);
    RunGrows(s, es[..i]);
    StaysImported(s, t, old_);
    VerdictExact(t, es[i]);
    assert old_[j] in old_;
    if old_[j].id == es[i].id {
      SameId(t, old_[j], es[i]);
    }
    if Collides(old_[j], es[i]) {
      Clashes(t, old_[j], es[i]);
    }
  }

  /** How the events of the grown thread meet those of the old one. */
  lemma GrownEvents(base: Event, start: Item, kept: seq<Item>, end: Item, open: Item, more: seq<Item>, close: Item)
    requires base.session.Some? && AllKept(kept) && AllKept(kept + more)
    requires start.kind.Some? && end.kind.Some? && open.kind.Some? && close.kind.Some?
    requires open.id == start.id && Grown(start, kept, more, end, close)
    ensures var old_, es := Session(base, start, kept, end), Session(base, open, kept + more, close);
            && es[0].id == old_[0].id
            && (forall i :: 1 <= i <= |kept| ==> es[i] == old_[i] && es[i].id == kept[i - 1].id)
            && Collides(old_[|kept| + 1], es[|kept| + 1]) && Collides(old_[|kept| + 1], es[|es| - 1])
            && (forall i, j :: |kept| + 1 < i < |es| - 1 && 0 <= j < |old_| ==> !Collides(old_[j], es[i]))
  {
    hide EventAt, Grown, Of;
    var old_, es := Session(base, start, kept, end), Session(base, open, kept + more, close);
    Edges(base, start, kept, end, open, more, close);
    forall i | 1 <= i <= |kept| ensures es[i] == old_[i] && es[i].id == kept[i - 1].id {
      OldItem(base, start, kept, end, open, more, close, i);
    }
    forall i, j | |kept| + 1 < i < |es| - 1 && 0 <= j < |old_| ensures !Collides(old_[j], es[i]) {
      NewItem(base, start, kept, end, open, more, close, i, j);
    }
  }

  lemma OldItem(base: Event, start: Item, kept: seq<Item>, end: Item, open: Item, more: seq<Item>, close: Item, i: nat)
    requires AllKept(kept) && AllKept(kept + more) && 1 <= i <= |kept| && open.id == start.id
    requires start.kind.Some? && end.kind.Some? && open.kind.Some? && close.kind.Some?
    ensures var e := EventAt(base, start, kept, end, i);
            e == EventAt(base, open, kept + more, close, i) && e.id == kept[i - 1].id
  {
    assert (kept + more)[i - 1] == kept[i - 1];
    assert i > 1 ==> (kept + more)[i - 2] == kept[i - 2];
  }

  /** The old closing event against the first new item and the new closing event. */
  lemma Edges(base: Event, start: Item, kept: seq<Item>, end: Item, open: Item, more: seq<Item>, close: Item)
    requires base.session.Some? && AllKept(kept) && AllKept(kept + more) && Grown(start, kept, more, end, close)
    requires start.kind.Some? && end.kind.Some? && open.kind.Some? && close.kind.Some? && open.id == start.id
    ensures EventAt(base, open, kept + more, close, 0).id == EventAt(base, start, kept, end, 0).id
    ensures var last := EventAt(base, start, kept, end, |kept| + 1);
            && Collides(last, EventAt(base, open, kept + more, close, |kept| + 1))
            && Collides(last, EventAt(base, open, kept + more, close, |kept + more| + 1))
  {
    assert (kept + more)[|kept|] == more[0] && more[0] in more;
  }

  lemma NewItem(base: Event, start: Item, kept: seq<Item>, end: Item, open: Item, more: seq<Item>, close: Item,
                i: nat, j: nat)
    requires AllKept(kept) && AllKept(kept + more) && Grown(start, kept, more, end, close)
    requires start.kind.Some? && end.kind.Some? && open.kind.Some? && close.kind.Some?
    requires |kept| + 1 < i <= |kept + more| && j < |kept| + 2
    ensures !Collides(EventAt(base, start, kept, end, j), EventAt(base, open, kept + more, close, i))
  {
    assert (kept + more)[i - 1] == more[i - 1 - |kept|] && more[i - 1 - |kept|] in more;
    assert 1 <= j <= |kept| ==> kept[j - 1] in kept;
  }

  lemma KeptFront(kept: seq<Item>, more: seq<Item>)
    requires AllKept(kept + more)
    ensures AllKept(kept) && AllKept(more)
  {
    assert forall item :: item in kept ==> item in kept + more;
    assert forall item :: item in more ==> item in kept + more;
  }

  lemma StaysImported(s: Store, t: Store, es: seq<Event>)
    requires Imported(s, es) && Grows(s, t)
    ensures Imported(t, es)
  {
    hide Grows, Stored, Barred;
    forall e | e in es ensures Stored(t, e) {
      BarredForever(s, t, e);
    }
  }

  /** Of two events with one id only the stored one is no conflict. */
  lemma SameId(t: Store, x: Event, e: Event)
    requires Inv(t) && Stored(t, x) && x.id == e.id
    ensures Stored(t, e) <==> e == x
    ensures Barred(t, e) <==> e != x
  {
    StoredNotBarred(t, x);
    assert e != x ==> Collides(t.events[x.id], e);
  }

  lemma Clashes(t: Store, x: Event, e: Event)
    requires Stored(t, x) && Collides(x, e)
    ensures Barred(t, e)
  {
    assert Collides(t.events[x.id], e);
  }

  /** The chunk starting at `from` of a thread of `n` events. */
  function ChunkEnd(from: nat, size: nat, n: nat): nat { if from + size < n then from + size else n }

  /** A chunk stops the import exactly when its first rejection is a fault. */
  predicate ChunkHalts(verdicts: seq<Verdict>, size: nat, from: nat)
    requires from < |verdicts|
  {
    FirstRejected(verdicts[from..ChunkEnd(from, size, |verdicts|)]) == Some(Fault)
  }

  /** `from` is a multiple of `size`. */
  predicate ChunkStart(size: nat, from: nat)
    requires 0 < size
  {
    from == 0 || (size <= from && ChunkStart(size, from - size))
  }

  lemma {:induction false} TallyAppend(sum: Summary, a: seq<Verdict>, b: seq<Verdict>)
    ensures TallyAll(sum, a + b) == TallyAll(TallyAll(sum, a), b)
    decreases |b|
  {
    if b == [] {
      assert a + b == a;
    } else {
      assert (a + b)[..|a + b| - 1] == a + b[..|b| - 1];
      TallyAppend(sum, a, b[..|b| - 1]);
    }
  }

  /** A slice of a run is the run of the slice. */
  lemma RunSlice(s: Store, es: seq<Event>, from: nat, to: nat)
    requires from <= to <= |es|
    ensures Run(Run(s, es[..from]).store, es[from..to]).store == Run(s, es[..to]).store
    ensures Run(Run(s, es[..from]).store, es[from..to]).verdicts == Run(s, es).verdicts[from..to]
    ensures Run(s, es[..to]).verdicts == Run(s, es).verdicts[..to]
  {
    hide Step;
    assert es[..to] == es[..from] + es[from..to];
    RunAppend(s, es[..from], es[from..to]);
    RunPrefix(s, es, to);
    RunPrefix(s, es, from);
  }

  lemma NothingYet(s: Store, es: seq<Event>, sum: Summary, size: nat)
    requires 0 < size
    ensures Run(s, es[..0]).store == s && TallyAll(sum, Run(s, es).verdicts[..0]) == sum && ChunkStart(size, 0)
  {
  }

  /** The events refused in their turn by a conflict, not by a raw constraint error. */
  ghost function Conflicts(s: Store, es: seq<Event>): set<nat> {
    set i: nat | i < |es| && Refused(s, es, i) && !Run(s, es).verdicts[i].Fault?
  }

  /** What an import adds to its counts: the events gained, the repeats and the conflicts. */
  ghost predicate Imports(s: Store, sum: Summary, es: seq<Event>, r: Summary) {
    && r.total == sum.total && r.invalid == sum.invalid
    && r.accepted == sum.accepted + |Run(s, es).store.events.Keys - s.events.Keys|
    && r.duplicates == sum.duplicates + |Repeats(s, es)| && r.conflicts == sum.conflicts + |Conflicts(s, es)|
  }

  lemma ConflictsSnoc(s: Store, es: seq<Event>)
    requires es != []
    ensures var n := |es| - 1;
            var t := Run(s, es[..n]).store;
            |Conflicts(s, es)| ==
            |Conflicts(s, es[..n])| + if Barred(t, es[n]) && !Step(t, es[n]).verdict.Fault? then 1 else 0
  {
    hide Repeated, Refused, Run, Stored, Barred, Inv, Step;
    var n := |es| - 1;
    RunPrefix(s, es, n);
    RunAt(s, es, [], n);
    forall i: nat | i < n ensures Refused(s, es[..n], i) == Refused(s, es, i) {
      TurnOfPrefix(s, es, n, i);
    }
    LastTurn(s, es);
    OneMore(Conflicts(s, es[..n]), Conflicts(s, es), n, Refused(s, es, n) && !Run(s, es).verdicts[n].Fault?);
  }

  lemma {:induction false} TallyImports(s: Store, sum: Summary, es: seq<Event>)
    requires Inv(s)
    ensures Imports(s, sum, es, TallyAll(sum, Run(s, es).verdicts))
    decreases |es|
  {
    hide Step, Inv, Stored, Barred, Repeats, Conflicts, Run, Imports, Tally;
    if es == [] {
      NothingImported(s, sum);
    } else {
      var n := |es| - 1;
      var before, e := es[..n], es[n];
      assert before + [e] == es;
      RunSnoc(s, before, e);
      TallyImports(s, sum, before);
      var vs, v := Run(s, before).verdicts, Step(Run(s, before).store, e).verdict;
      assert (vs + [v])[..|vs|] == vs;
      ImportsMore(s, sum, before, e, TallyAll(sum, vs));
    }
  }

  lemma NothingImported(s: Store, sum: Summary)
    ensures Imports(s, sum, [], TallyAll(sum, Run(s, []).verdicts))
  {
    NoTurns(s, sum);
    assert Conflicts(s, []) == {};
  }

  lemma ImportsMore(s: Store, sum: Summary, es: seq<Event>, e: Event, r: Summary)
    requires Inv(s) && Imports(s, sum, es, r)
    ensures Imports(s, sum, es + [e], Tally(r, Step(Run(s, es).store, e).verdict))
  {
    hide Step, Inv, Stored, Barred, Repeats, Conflicts, Run;
    var n, all, t := |es|, es + [e], Run(s, es).store;
    assert all[..n] == es && all[n] == e;
    RunSnoc(s, es, e);
    RunInv(s, es);
    EventsOnlyGrow(s, es);
    VerdictEvents(t, e);
    RepeatsSnoc(s, all);
    ConflictsSnoc(s, all);
    if Step(t, e).verdict.Accepted? {
      Gained(s.events.Keys, t.events.Keys, e.id);
    }
  }

  class HistoryImporter {
    const service: IngestService

    constructor (service: IngestService)
      ensures this.service == service
    {
      this.service := service;
    }

    /** The per-record pass over a conflicting chunk; nothing stops it. */
    method RetryChunk(sum: Summary, chunk: seq<Event>) returns (r: Summary)
      requires service.repository.Valid()
      modifies service.repository
      ensures service.repository.Valid()
      ensures var t := Run(old(service.repository.State()), Redacted(chunk, service.redact));
              service.repository.State() == t.store && r == TallyAll(sum, t.verdicts)
    {
      hide Step;
      r := sum;
      ghost var s := service.repository.State();
      ghost var red := Redacted(chunk, service.redact);
      var i := 0;
      while i < |chunk|
        invariant i <= |chunk| && service.repository.Valid()
        invariant service.repository.State() == Run(s, red[..i]).store && r == TallyAll(sum, Run(s, red[..i]).verdicts)
      {
        assert red[..i + 1] == red[..i] + [red[i]];
        RunSnoc(s, red[..i], red[i]);
        var v := service.IngestOne(chunk[i]);
        TallyAppend(sum, Run(s, red[..i]).verdicts, [v]);
        r := Tally(r, v);
        i := i + 1;
      }
      assert red[..i] == red;
    }

    method IngestChunk(sum: Summary, chunk: seq<Event>) returns (r: Summary, halted: bool)
      requires service.repository.Valid()
      modifies service.repository
      ensures service.repository.Valid()
      ensures var t := Run(old(service.repository.State()), Redacted(chunk, service.redact));
              && halted == (FirstRejected(t.verdicts) == Some(Fault))
              && (!halted ==> service.repository.State() == t.store && r == TallyAll(sum, t.verdicts))
              && (halted ==> service.repository.State() == old(service.repository.State()) && r == sum)
    {
      hide Step;
      var batch := service.IngestMany(chunk);
      if batch.Committed? {
        r := service.AccountAll(sum, batch.verdicts);
        halted := false;
      } else if batch.first.Conflict? {
        r := RetryChunk(sum, chunk);
        halted := false;
      } else {
        r, halted := sum, true;
      }
    }

    /** The chunked import of one thread finishes exactly when no chunk's first
        rejection is a fault, and then its store and counts are those of
        one-at-a-time ingest, whatever the chunk size. */
    method ImportThread(sum: Summary, events: seq<Event>, batchSize: int) returns (r: Summary, halted: bool)
      requires service.repository.Valid()
      modifies service.repository
      ensures service.repository.Valid()
      ensures var t := Run(old(service.repository.State()), Redacted(events, service.redact));
              var size := Max(1, Min(batchSize, 5000));
              && (halted <==> exists from :: 0 <= from < |events| && ChunkStart(size, from)
                                             && ChunkHalts(t.verdicts, size, from))
              && (!halted ==> service.repository.State() == t.store && r == TallyAll(sum, t.verdicts))
      ensures !halted ==> Imports(old(service.repository.State()), sum, Redacted(events, service.redact), r)
    {
      hide Step, Run, TallyAll, FirstRejected, Inv, ChunkHalts, ChunkStart, ChunkEnd, Imports;
      ghost var s := service.repository.State();
      ghost var red := Redacted(events, service.redact);
      ghost var all := Run(s, red).verdicts;
      var size := Max(1, Min(batchSize, 5000));
      r, halted := sum, false;
      var from := 0;
      NothingYet(s, red, sum, size);
      while from < |events|
        invariant from <= |events| && service.repository.Valid() && (from == |events| || ChunkStart(size, from))
        invariant service.repository.State() == Run(s, red[..from]).store && r == TallyAll(sum, all[..from])
        invariant forall k :: 0 <= k < from && ChunkStart(size, k) ==> !ChunkHalts(all, size, k)
      {
        var to := ChunkEnd(from, size, |events|);
        ChunkFacts(s, red, sum, size, from);
        assert red[from..to] == Redacted(events[from..to], service.redact);
        r, halted := IngestChunk(r, events[from..to]);
        if halted { return; }
        from := to;
      }
      assert red[..from] == red && all[..from] == all;
      TallyImports(s, sum, red);
    }
  }

  /** What one chunk of an import contributes. */
  lemma ChunkFacts(s: Store, red: seq<Event>, sum: Summary, size: nat, from: nat)
    requires 0 < size && from < |red| && ChunkStart(size, from)
    ensures var all := Run(s, red).verdicts;
            var to := ChunkEnd(from, size, |red|);
            var t := Run(Run(s, red[..from]).store, red[from..to]);
            && from < to <= |red| && (to == |red| || ChunkStart(size, to))
            && t.store == Run(s, red[..to]).store
            && (ChunkHalts(all, size, from) <==> FirstRejected(t.verdicts) == Some(Fault))
            && TallyAll(TallyAll(sum, all[..from]), t.verdicts) == TallyAll(sum, all[..to])
            && (forall k :: from < k < to ==> !ChunkStart(size, k))
  {
    hide Step, Run, TallyAll, FirstRejected;
    var all := Run(s, red).verdicts;
    var to := ChunkEnd(from, size, |red|);
    RunSlice(s, red, from, to);
    TallyAppend(sum, all[..from], all[from..to]);
    assert all[..to] == all[..from] + all[from..to];
    forall k | from < k < to ensures !ChunkStart(size, k) {
      if ChunkStart(size, k) {
        BetweenStarts(size, from, k);
      }
    }
  }

  lemma {:induction false} BetweenStarts(size: nat, from: nat, k: nat)
    requires 0 < size && ChunkStart(size, from) && ChunkStart(size, k) && k < from + size
    ensures k <= from
    decreases from
  {
    if 0 < from && 0 < k {
      BetweenStarts(size, from - size, k - size);
    }
  }
}
