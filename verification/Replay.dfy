/** Bounded-batch JSONL replay against one-at-a-time ingest
    (src/codememory/ingest/service.py). */
module Replay {
  import opened Base
  import opened Events
  import opened Ingest
  import opened IngestTheorems
  import opened Repository

  /** A non-comment line is either rejected by JSON or envelope validation or
      normalises to an event. */
  datatype Line = Blank | Invalid | Record(event: Event)

  datatype Summary = Summary(total: nat, accepted: nat, duplicates: nat, conflicts: nat, invalid: nat) {
    function Errors(): nat { conflicts + invalid }
    predicate Balanced() { accepted + duplicates + conflicts + invalid == total }
  }

  const ZERO := Summary(0, 0, 0, 0, 0)

  /** `Crashed`: an exception other than ConflictError left the replay. */
  datatype Report = Done(store: Store, sum: Summary) | Crashed(store: Store)

  function Tally(sum: Summary, v: Verdict): Summary {
    match v
    case Accepted => sum.(accepted := sum.accepted + 1)
    case Duplicate(_) => sum.(duplicates := sum.duplicates + 1)
    case Conflict(_) => sum.(conflicts := sum.conflicts + 1)
    case Fault => sum
  }

  ghost function Feed(rep: Report, e: Event): Report {
    if rep.Crashed? then rep
    else
      var o := Step(rep.store, e);
      if o.verdict.Fault? then Crashed(o.store) else Done(o.store, Tally(rep.sum, o.verdict))
  }

  ghost function Drain(rep: Report, es: seq<Event>): Report
    decreases |es|
  {
    if es == [] then rep else Feed(Drain(rep, es[..|es| - 1]), es[|es| - 1])
  }

  function Bump(rep: Report, total: nat, invalid: nat): Report {
    if rep.Crashed? then rep
    else Done(rep.store, rep.sum.(total := rep.sum.total + total, invalid := rep.sum.invalid + invalid))
  }

  /** The reference: every line ingested on its own, in order. */
  ghost function OneByOne(s: Store, lines: seq<Line>, redact: Event -> Event): Report
    decreases |lines|
  {
    if lines == [] then Done(s, ZERO)
    else
      var before := OneByOne(s, lines[..|lines| - 1], redact);
      match lines[|lines| - 1]
      case Blank => before
      case Invalid => Bump(before, 1, 1)
      case Record(e) => Feed(Bump(before, 1, 0), redact(e))
  }

  lemma {:induction false} DrainBump(rep: Report, es: seq<Event>, total: nat, invalid: nat)
    ensures Drain(Bump(rep, total, invalid), es) == Bump(Drain(rep, es), total, invalid)
    decreases |es|
  {
    hide Step;
    if es != [] {
      DrainBump(rep, es[..|es| - 1], total, invalid);
    }
  }

  lemma DrainSnoc(rep: Report, es: seq<Event>, e: Event)
    ensures Drain(rep, es + [e]) == Feed(Drain(rep, es), e)
  {
    hide Step;
    assert (es + [e])[..|es|] == es;
  }

  lemma {:induction false} DrainAppend(rep: Report, a: seq<Event>, b: seq<Event>)
    ensures Drain(rep, a + b) == Drain(Drain(rep, a), b)
    decreases |b|
  {
    hide Step;
    if b == [] {
      assert a + b == a;
    } else {
      assert (a + b)[..|a + b| - 1] == a + b[..|b| - 1];
      DrainAppend(rep, a, b[..|b| - 1]);
    }
  }

  function TallyAll(sum: Summary, verdicts: seq<Verdict>): Summary
    decreases |verdicts|
  {
    if verdicts == [] then sum
    else Tally(TallyAll(sum, verdicts[..|verdicts| - 1]), verdicts[|verdicts| - 1])
  }

  /** Without a fault, draining is the run and its tallies. */
  lemma {:induction false} DrainIsRun(s: Store, sum: Summary, es: seq<Event>)
    requires forall v :: v in Run(s, es).verdicts ==> !v.Fault?
    ensures Drain(Done(s, sum), es) == Done(Run(s, es).store, TallyAll(sum, Run(s, es).verdicts))
    decreases |es|
  {
    hide Step;
    if es != [] {
      var before := es[..|es| - 1];
      var t := Run(s, before);
      var v := Step(t.store, es[|es| - 1]).verdict;
      assert v in Run(s, es).verdicts;
      assert forall w :: w in t.verdicts ==> w in Run(s, es).verdicts;
      DrainIsRun(s, sum, before);
      assert (t.verdicts + [v])[..|es| - 1] == t.verdicts;
    }
  }

  /** The position of the first rejection. */
  ghost predicate RejectsAt(verdicts: seq<Verdict>, k: nat) {
    k < |verdicts| && verdicts[k].Rejected() && forall i :: 0 <= i < k ==> !verdicts[i].Rejected()
  }

  lemma {:induction false} FirstRejectedAt(verdicts: seq<Verdict>, k: nat)
    requires RejectsAt(verdicts, k)
    ensures FirstRejected(verdicts) == Some(verdicts[k])
  {
    if k > 0 {
      FirstRejectedAt(verdicts[1..], k - 1);
    }
  }

  lemma {:induction false} FindRejection(verdicts: seq<Verdict>) returns (k: nat)
    requires FirstRejected(verdicts).Some?
    ensures RejectsAt(verdicts, k) && FirstRejected(verdicts) == Some(verdicts[k])
  {
    if verdicts[0].Rejected() {
      k := 0;
    } else {
      k := FindRejection(verdicts[1..]);
      k := k + 1;
    }
  }

  lemma {:induction false} DrainCrashed(rep: Report, es: seq<Event>)
    requires rep.Crashed?
    ensures Drain(rep, es) == rep
    decreases |es|
  {
    hide Step;
    if es != [] {
      DrainCrashed(rep, es[..|es| - 1]);
    }
  }

  lemma DrainUpTo(s: Store, sum: Summary, es: seq<Event>, k: nat)
    requires RejectsAt(Run(s, es).verdicts, k)
    ensures Drain(Done(s, sum), es[..k]).Done? && Drain(Done(s, sum), es[..k]).store == Run(s, es[..k]).store
  {
    hide Step;
    RunPrefix(s, es, k);
    forall v | v in Run(s, es[..k]).verdicts ensures !v.Fault? {
    }
    DrainIsRun(s, sum, es[..k]);
  }

  lemma DrainStops(rep: Report, es: seq<Event>, k: nat)
    requires k < |es| && Drain(rep, es[..k]).Done?
    requires Step(Drain(rep, es[..k]).store, es[k]).verdict.Fault?
    ensures Drain(rep, es) == Crashed(Drain(rep, es[..k]).store)
  {
    hide Step;
    FeedFault(Drain(rep, es[..k]), es[k]);
    DrainSnoc(rep, es[..k], es[k]);
    assert es == es[..k] + [es[k]] + es[k + 1..];
    DrainAppend(rep, es[..k] + [es[k]], es[k + 1..]);
    DrainCrashed(Drain(rep, es[..k] + [es[k]]), es[k + 1..]);
  }

  /** When the first rejection is a fault, one-at-a-time ingest stops right there. */
  lemma DrainFaults(s: Store, sum: Summary, es: seq<Event>, k: nat)
    requires RejectsAt(Run(s, es).verdicts, k) && Run(s, es).verdicts[k].Fault?
    ensures Drain(Done(s, sum), es) == Crashed(Run(s, es[..k]).store)
  {
    hide Step;
    DrainUpTo(s, sum, es, k);
    RunAt(s, es, [], k);
    DrainStops(Done(s, sum), es, k);
  }

  lemma FeedFault(rep: Report, e: Event)
    requires rep.Done? && Step(rep.store, e).verdict.Fault?
    ensures Feed(rep, e) == Crashed(rep.store)
  {
  }

  lemma {:induction false} AcceptedChanges(s: Store, es: seq<Event>)
    requires Inv(s)
    ensures Run(s, es).store == s <==> forall v :: v in Run(s, es).verdicts ==> !v.Accepted?
    decreases |es|
  {
    hide Step;
    if es != [] {
      var before := es[..|es| - 1];
      var t := Run(s, before);
      var e := es[|es| - 1];
      AcceptedChanges(s, before);
      RunInv(s, before);
      VerdictExact(t.store, e);
      var v := Step(t.store, e).verdict;
      assert Run(s, es).verdicts == t.verdicts + [v];
      if v.Accepted? {
        AcceptedFits(t.store, e);
        RunGrows(s, before);
        assert v in Run(s, es).verdicts;
        assert e.id !in s.events;
      } else {
        assert forall w :: w in Run(s, es).verdicts <==> w in t.verdicts || w == v;
      }
    }
  }

  /** What one flush leaves in the store: a batch aborted by a fault is rolled
      back; any other batch ends where one-at-a-time ingest ends. */
  ghost function FlushStore(s: Store, es: seq<Event>): Store {
    if FirstRejected(Run(s, es).verdicts) == Some(Fault) then s else Drain(Done(s, ZERO), es).store
  }

  /** Batching is visible in the store exactly when the batch's first rejection is
      a fault and an event before it was accepted. */
  lemma BatchingVisibleExactly(s: Store, es: seq<Event>)
    requires Inv(s)
    ensures FlushStore(s, es) != Drain(Done(s, ZERO), es).store
       <==> exists i, k :: 0 <= i < k && RejectsAt(Run(s, es).verdicts, k) && Run(s, es).verdicts[k].Fault?
                           && Run(s, es).verdicts[i].Accepted?
  {
    hide Step;
    var v := Run(s, es).verdicts;
    if FirstRejected(v) == Some(Fault) {
      var k := FindRejection(v);
      DrainFaults(s, ZERO, es, k);
      RunPrefix(s, es, k);
      AcceptedChanges(s, es[..k]);
      if Run(s, es[..k]).store != s {
        var w :| w in v[..k] && w.Accepted?;
        var i :| 0 <= i < k && v[..k][i] == w;
        assert v[i].Accepted?;
      } else {
        forall i, m | 0 <= i < m && RejectsAt(v, m) && v[m].Fault? ensures !v[i].Accepted? {
          assert m == k;
          assert v[..k][i] == v[i];
        }
      }
    } else {
      forall k: nat | RejectsAt(v, k) ensures !v[k].Fault? {
        FirstRejectedAt(v, k);
      }
    }
  }

  function Redacted(es: seq<Event>, redact: Event -> Event): seq<Event> {
    seq(|es|, i requires 0 <= i < |es| => redact(es[i]))
  }

  lemma RedactedSnoc(es: seq<Event>, e: Event, redact: Event -> Event)
    ensures Redacted(es + [e], redact) == Redacted(es, redact) + [redact(e)]
  {
  }

  lemma {:induction false} TallyKeeps(sum: Summary, verdicts: seq<Verdict>)
    ensures var r := TallyAll(sum, verdicts);
            r.total == sum.total && r.invalid == sum.invalid
    decreases |verdicts|
  {
    if verdicts != [] {
      TallyKeeps(sum, verdicts[..|verdicts| - 1]);
    }
  }

  /** Errors only accumulate. */
  lemma {:induction false} ErrorsGrow(s: Store, lines: seq<Line>, redact: Event -> Event, i: nat)
    requires i <= |lines| && OneByOne(s, lines, redact).Done?
    ensures OneByOne(s, lines[..i], redact).Done?
    ensures OneByOne(s, lines[..i], redact).sum.Errors() <= OneByOne(s, lines, redact).sum.Errors()
    decreases |lines|
  {
    hide Step;
    if i == |lines| {
      assert lines[..i] == lines;
    } else {
      assert lines[..|lines| - 1][..i] == lines[..i];
      ErrorsGrow(s, lines[..|lines| - 1], redact, i);
    }
  }

  lemma {:induction false} CrashedPrefix(s: Store, lines: seq<Line>, redact: Event -> Event, i: nat)
    requires i <= |lines| && OneByOne(s, lines[..i], redact).Crashed?
    ensures OneByOne(s, lines, redact).Crashed?
    decreases |lines|
  {
    hide Step;
    if i == |lines| {
      assert lines[..i] == lines;
    } else {
      assert lines[..|lines| - 1][..i] == lines[..i];
      CrashedPrefix(s, lines[..|lines| - 1], redact, i);
    }
  }

  lemma {:induction false} DrainErrors(rep: Report, es: seq<Event>)
    requires rep.Done? && Drain(rep, es).Done?
    ensures rep.sum.Errors() <= Drain(rep, es).sum.Errors()
    ensures Drain(rep, es).sum.total == rep.sum.total
    ensures var d := Drain(rep, es).sum;
            d.accepted + d.duplicates + d.conflicts + d.invalid
            == rep.sum.accepted + rep.sum.duplicates + rep.sum.conflicts + rep.sum.invalid + |es|
    decreases |es|
  {
    hide Step;
    if es != [] {
      DrainErrors(rep, es[..|es| - 1]);
    }
  }

  /******* What the counts count *******/

  /** The events whose equal was stored when their turn came. */
  ghost function Repeats(s: Store, es: seq<Event>): set<nat> { set i: nat | i < |es| && Repeated(s, es, i) }

  ghost predicate Repeated(s: Store, es: seq<Event>, i: nat)
    requires i < |es|
  {
    Stored(Run(s, es[..i]).store, es[i])
  }

  /** The events some stored fact ruled out when their turn came. */
  ghost function Refusals(s: Store, es: seq<Event>): set<nat> { set i: nat | i < |es| && Refused(s, es, i) }

  ghost predicate Refused(s: Store, es: seq<Event>, i: nat)
    requires i < |es|
  {
    Barred(Run(s, es[..i]).store, es[i])
  }

  /** The redacted events of a stream, in order. */
  function Records(lines: seq<Line>, redact: Event -> Event): seq<Event>
    decreases |lines|
  {
    if lines == [] then []
    else
      var last := lines[|lines| - 1];
      Records(lines[..|lines| - 1], redact) + if last.Record? then [redact(last.event)] else []
  }

  /** The lines that are no comment, and those that are no event. */
  function Heard(lines: seq<Line>): set<nat> { set i: nat | i < |lines| && !lines[i].Blank? }

  function Bad(lines: seq<Line>): set<nat> { set i: nat | i < |lines| && lines[i].Invalid? }

  /** A summary of a stream: every line that is no comment, every invalid one, every event the
      store has gained, every repeat and every refusal. */
  ghost predicate Reported(s: Store, lines: seq<Line>, redact: Event -> Event, t: Store, sum: Summary) {
    var es := Records(lines, redact);
    && sum.total == |Heard(lines)| && sum.invalid == |Bad(lines)|
    && sum.accepted == |t.events.Keys - s.events.Keys|
    && sum.duplicates == |Repeats(s, es)| && sum.conflicts == |Refusals(s, es)|
  }

  lemma RepeatsSnoc(s: Store, es: seq<Event>)
    requires es != []
    ensures var n := |es| - 1;
            |Repeats(s, es)| == |Repeats(s, es[..n])| + if Stored(Run(s, es[..n]).store, es[n]) then 1 else 0
  {
    hide Repeated, Refused, Run, Stored, Barred, Inv;
    var n := |es| - 1;
    forall i: nat | i < n ensures Repeated(s, es[..n], i) == Repeated(s, es, i) {
      TurnOfPrefix(s, es, n, i);
    }
    LastTurn(s, es);
    OneMore(Repeats(s, es[..n]), Repeats(s, es), n, Repeated(s, es, n));
  }

  lemma RefusalsSnoc(s: Store, es: seq<Event>)
    requires es != []
    ensures var n := |es| - 1;
            |Refusals(s, es)| == |Refusals(s, es[..n])| + if Barred(Run(s, es[..n]).store, es[n]) then 1 else 0
  {
    hide Repeated, Refused, Run, Stored, Barred, Inv;
    var n := |es| - 1;
    forall i: nat | i < n ensures Refused(s, es[..n], i) == Refused(s, es, i) {
      TurnOfPrefix(s, es, n, i);
    }
    LastTurn(s, es);
    OneMore(Refusals(s, es[..n]), Refusals(s, es), n, Refused(s, es, n));
  }

  lemma OneMore(part: set<nat>, full: set<nat>, n: nat, last: bool)
    requires (forall i :: i in part ==> i < n) && (forall i :: i in full ==> i <= n)
    requires (forall i :: 0 <= i < n ==> (i in part <==> i in full)) && (n in full <==> last)
    ensures |full| == |part| + if last then 1 else 0
  {
    if last {
      assert full == part + {n};
    } else {
      assert full == part;
    }
  }

  lemma TurnOfPrefix(s: Store, es: seq<Event>, n: nat, i: nat)
    requires i < n <= |es|
    ensures Repeated(s, es[..n], i) == Repeated(s, es, i) && Refused(s, es[..n], i) == Refused(s, es, i)
  {
    hide Run, Stored, Barred;
    assert es[..n][..i] == es[..i];
  }

  lemma LastTurn(s: Store, es: seq<Event>)
    requires es != []
    ensures var n := |es| - 1;
            Repeated(s, es, n) == Stored(Run(s, es[..n]).store, es[n])
            && Refused(s, es, n) == Barred(Run(s, es[..n]).store, es[n])
  {
  }

  /** A verdict and what it makes of the stored events. */
  lemma VerdictEvents(s: Store, e: Event)
    requires Inv(s)
    ensures var o := Step(s, e);
            && (o.verdict.Duplicate? <==> Stored(s, e)) && (o.verdict.Rejected() <==> Barred(s, e))
            && (if o.verdict.Accepted? then e.id !in s.events && o.store.events.Keys == s.events.Keys + {e.id}
                else o.store == s)
  {
    hide Step, Inv, Barred, Stored, Insert;
    VerdictExact(s, e);
    if Step(s, e).verdict.Accepted? {
      AcceptedFits(s, e) by { InvSessions(s); }
      InsertEvents(s, e);
    }
  }

  lemma InvSessions(s: Store)
    requires Inv(s)
    ensures SessionsExact(s)
  {
  }

  lemma InsertEvents(s: Store, e: Event)
    requires Fits(s, e)
    ensures e.id !in s.events && Insert(s, e).events.Keys == s.events.Keys + {e.id}
  {
  }

  lemma {:induction false} EventsOnlyGrow(s: Store, es: seq<Event>)
    requires Inv(s)
    ensures s.events.Keys <= Run(s, es).store.events.Keys
    decreases |es|
  {
    hide Step, Inv;
    RunGrows(s, es);
    assert forall id :: id in s.events ==> id in Run(s, es).store.events;
  }

  /** `d` adds to `sum` the events gained, the repeats and the refusals. */
  ghost predicate Counts(s: Store, sum: Summary, es: seq<Event>, d: Summary) {
    && d.total == sum.total && d.invalid == sum.invalid
    && d.accepted == sum.accepted + |Run(s, es).store.events.Keys - s.events.Keys|
    && d.duplicates == sum.duplicates + |Repeats(s, es)| && d.conflicts == sum.conflicts + |Refusals(s, es)|
  }

  lemma CountsMore(s: Store, sum: Summary, es: seq<Event>, e: Event, d: Summary)
    requires Inv(s) && Counts(s, sum, es, d) && !Step(Run(s, es).store, e).verdict.Fault?
    ensures Counts(s, sum, es + [e], Tally(d, Step(Run(s, es).store, e).verdict))
  {
    hide Step, Inv, Stored, Barred, Repeats, Refusals, Run;
    var n, all, t := |es|, es + [e], Run(s, es).store;
    assert all[..n] == es && all[n] == e;
    RunSnoc(s, es, e);
    RunInv(s, es);
    EventsOnlyGrow(s, es);
    VerdictEvents(t, e);
    RepeatsSnoc(s, all);
    RefusalsSnoc(s, all);
    if Step(t, e).verdict.Accepted? {
      Gained(s.events.Keys, t.events.Keys, e.id);
    }
  }

  lemma {:induction false} DrainCounts(s: Store, sum: Summary, es: seq<Event>)
    requires Inv(s) && Drain(Done(s, sum), es).Done?
    ensures var d := Drain(Done(s, sum), es);
            d.store == Run(s, es).store && Counts(s, sum, es, d.sum)
    decreases |es|
  {
    hide Step, Inv, Counts, Run, Drain, Feed, Tally;
    if es == [] {
      NoTurns(s, sum);
    } else {
      var n := |es| - 1;
      var before, e := es[..n], es[n];
      assert before + [e] == es;
      RunSnoc(s, before, e);
      DrainSnoc(Done(s, sum), before, e);
      FeedCases(Drain(Done(s, sum), before), e);
      DrainCounts(s, sum, before);
      CountsMore(s, sum, before, e, Drain(Done(s, sum), before).sum);
    }
  }

  lemma Gained(old_: set<string>, now: set<string>, id: string)
    requires old_ <= now && id !in now
    ensures |now + {id} - old_| == |now - old_| + 1
  {
    assert now + {id} - old_ == (now - old_) + {id};
  }

  lemma FeedCases(rep: Report, e: Event)
    ensures Feed(rep, e).Done? ==>
              && rep.Done?
              && var o := Step(rep.store, e);
                 && Feed(rep, e).store == o.store && Feed(rep, e).sum == Tally(rep.sum, o.verdict) && !o.verdict.Fault?
  {
    hide Step;
  }

  lemma NoTurns(s: Store, sum: Summary)
    ensures Drain(Done(s, sum), []) == Done(s, sum) && Counts(s, sum, [], sum)
    ensures Repeats(s, []) == {} && Refusals(s, []) == {} && s.events.Keys - s.events.Keys == {}
    ensures Run(s, []).store == s
  {
  }

  lemma LinesSnoc(lines: seq<Line>)
    requires lines != []
    ensures var n := |lines| - 1;
            && Heard(lines) == Heard(lines[..n]) + (if lines[n].Blank? then {} else {n})
            && Bad(lines) == Bad(lines[..n]) + (if lines[n].Invalid? then {n} else {})
            && n !in Heard(lines[..n]) && n !in Bad(lines[..n])
  {
    var n := |lines| - 1;
    assert forall i :: 0 <= i < n ==> lines[..n][i] == lines[i];
  }

  /** One-at-a-time ingest drains the records of the stream. */
  lemma {:induction false} OneByOneDrains(s: Store, lines: seq<Line>, redact: Event -> Event)
    ensures OneByOne(s, lines, redact) ==
            Bump(Drain(Done(s, ZERO), Records(lines, redact)), |Heard(lines)|, |Bad(lines)|)
    decreases |lines|
  {
    hide Step, Heard, Bad, Drain, Feed, Bump;
    if lines == [] {
      NoLines(s);
    } else {
      var n := |lines| - 1;
      var before := Drain(Done(s, ZERO), Records(lines[..n], redact));
      OneByOneDrains(s, lines[..n], redact);
      LinesSnoc(lines);
      match lines[n] {
        case Blank =>
          assert Records(lines, redact) == Records(lines[..n], redact) + [] == Records(lines[..n], redact);
          assert Heard(lines) == Heard(lines[..n]) && Bad(lines) == Bad(lines[..n]);
        case Invalid =>
          assert Records(lines, redact) == Records(lines[..n], redact) + [] == Records(lines[..n], redact);
          BumpTwice(before, |Heard(lines[..n])|, |Bad(lines[..n])|);
        case Record(e) =>
          DrainSnoc(Done(s, ZERO), Records(lines[..n], redact), redact(e));
          FeedBump(before, |Heard(lines[..n])|, |Bad(lines[..n])|, redact(e));
      }
    }
  }

  lemma BumpTwice(rep: Report, total: nat, invalid: nat)
    ensures Bump(Bump(rep, total, invalid), 1, 1) == Bump(rep, total + 1, invalid + 1)
  {
  }

  lemma NoLines(s: Store)
    ensures Heard([]) == {} && Bad([]) == {} && Bump(Drain(Done(s, ZERO), []), 0, 0) == Done(s, ZERO)
  {
  }

  lemma FeedBump(rep: Report, total: nat, invalid: nat, e: Event)
    ensures Feed(Bump(Bump(rep, total, invalid), 1, 0), e) == Bump(Feed(rep, e), total + 1, invalid)
  {
    hide Step;
  }

  /** What one-at-a-time ingest reports. */
  lemma OneByOneReports(s: Store, lines: seq<Line>, redact: Event -> Event)
    requires Inv(s) && OneByOne(s, lines, redact).Done?
    ensures var one := OneByOne(s, lines, redact);
            one.store == Run(s, Records(lines, redact)).store && Reported(s, lines, redact, one.store, one.sum)
  {
    hide Step, Inv, Repeats, Refusals, OneByOne, Records, Drain;
    OneByOneDrains(s, lines, redact);
    DrainCounts(s, ZERO, Records(lines, redact));
  }

  class IngestService {
    const repository: MemoryRepository
    const redact: Event -> Event

    constructor (repository: MemoryRepository, redact: Event -> Event)
      ensures this.repository == repository && this.redact == redact
    {
      this.repository, this.redact := repository, redact;
    }

    method IngestOne(e: Event) returns (v: Verdict)
      requires repository.Valid()
      modifies repository
      ensures repository.Valid()
      ensures Outcome(repository.State(), v) == Step(old(repository.State()), redact(e))
    {
      v := repository.IngestOne(redact(e));
    }

    method IngestMany(es: seq<Event>) returns (r: Batch)
      requires repository.Valid()
      modifies repository
      ensures repository.Valid()
      ensures var t := Run(old(repository.State()), Redacted(es, redact));
              match FirstRejected(t.verdicts)
              case None => r == Committed(t.verdicts) && repository.State() == t.store
              case Some(v) => r == Aborted(v) && repository.Snapshot() == old(repository.Snapshot())
    {
      r := repository.IngestMany(Redacted(es, redact));
    }

    method AccountAll(sum: Summary, verdicts: seq<Verdict>) returns (r: Summary)
      ensures r == TallyAll(sum, verdicts)
    {
      r := sum;
      var i := 0;
      while i < |verdicts|
        invariant i <= |verdicts| && r == TallyAll(sum, verdicts[..i])
      {
        assert verdicts[..i + 1][..i] == verdicts[..i];
        r := Tally(r, verdicts[i]);
        i := i + 1;
      }
      assert verdicts[..i] == verdicts;
    }

    /** The per-record retry of a conflicting batch; only a fault stops it. */
    method Retry(sum: Summary, records: seq<Event>) returns (r: Summary, crashed: bool)
      requires repository.Valid()
      modifies repository
      ensures repository.Valid()
      ensures var d := Drain(Done(old(repository.State()), sum), Redacted(records, redact));
              repository.State() == d.store && crashed == d.Crashed? && (!crashed ==> r == d.sum)
    {
      hide Step;
      r, crashed := sum, false;
      ghost var start := Done(repository.State(), sum);
      ghost var red := Redacted(records, redact);
      var i := 0;
      while i < |records|
        invariant i <= |records| && repository.Valid()
        invariant Drain(start, red[..i]) == Done(repository.State(), r)
      {
        assert red[..i + 1] == red[..i] + [red[i]];
        DrainSnoc(start, red[..i], red[i]);
        var v := IngestOne(records[i]);
        if v.Fault? {
          crashed := true;
          assert red == red[..i + 1] + red[i + 1..];
          DrainAppend(start, red[..i + 1], red[i + 1..]);
          DrainCrashed(Drain(start, red[..i + 1]), red[i + 1..]);
          return;
        }
        r := Tally(r, v);
        i := i + 1;
      }
      assert red[..i] == red;
    }

    /** One bounded batch, with the per-record fallback after a conflict. */
    method Flush(sum: Summary, records: seq<Event>) returns (r: Summary, crashed: bool)
      requires repository.Valid()
      modifies repository
      ensures repository.Valid()
      ensures var s := old(repository.State());
              var red := Redacted(records, redact);
              var d := Drain(Done(s, sum), red);
              && crashed == d.Crashed?
              && (!crashed ==> r == d.sum && repository.State() == d.store)
              && (crashed ==> repository.State() == FlushStore(s, red))
    {
      hide Step;
      ghost var s := repository.State();
      ghost var red := Redacted(records, redact);
      ghost var verdicts := Run(s, red).verdicts;
      if records == [] {
        return sum, false;
      }
      var batch := IngestMany(records);
      if batch.Committed? {
        DrainIsRun(s, sum, red);
        r := AccountAll(sum, batch.verdicts);
        crashed := false;
      } else if batch.first.Conflict? {
        r, crashed := Retry(sum, records);
        DrainStore(s, sum, ZERO, red);
      } else {
        ghost var k := FindRejection(verdicts);
        DrainFaults(s, sum, red, k);
        return sum, true;
      }
    }

    /** Non-strict replay. Unless a fault crashes it or the error limit stops it,
        it ends with the store and counts of one-at-a-time ingest, for every batch
        size; a crash leaves the store one-at-a-time ingest has after some prefix. */
    method ReplayJsonl(lines: seq<Line>, maxErrors: int, batchSize: int)
      returns (sum: Summary, crashed: bool, limited: bool)
      requires repository.Valid()
      modifies repository
      ensures repository.Valid()
      ensures var one := OneByOne(old(repository.State()), lines, redact);
              && (!crashed && !limited ==> one == Done(repository.State(), sum))
              && (one.Done? && one.sum.Errors() < maxErrors ==> !crashed && !limited)
              && (crashed ==> one.Crashed?)
      ensures crashed ==> exists k :: 0 <= k <= |lines|
                            && repository.State() == OneByOne(old(repository.State()), lines[..k], redact).store
      ensures !crashed ==> sum.Balanced()
      ensures limited ==> !crashed && maxErrors <= sum.Errors()
      ensures !crashed ==> exists k :: 0 <= k <= |lines| && (!limited ==> k == |lines|)
                             && repository.State() == Run(old(repository.State()), Records(lines[..k], redact)).store
                             && Reported(old(repository.State()), lines[..k], redact, repository.State(), sum)
    {
      hide Step, OneByOne, Records, Reported, Inv, Run;
      ghost var s := repository.State();
      ghost var k: nat;
      sum, crashed, limited, k := ReplayLines(s, lines, maxErrors, batchSize);
      if !crashed {
        OneByOneReports(s, lines[..k], redact);
        assert lines[..|lines|] == lines;
      }
    }

    /** The loop over the stream; `k` is how much of it the store then holds. */
    method ReplayLines(ghost s: Store, lines: seq<Line>, maxErrors: int, batchSize: int)
      returns (sum: Summary, crashed: bool, limited: bool, ghost k: nat)
      requires repository.Valid() && s == repository.State()
      modifies repository
      ensures repository.Valid() && k <= |lines|
      ensures repository.State() == OneByOne(s, lines[..k], redact).store
      ensures crashed ==> OneByOne(s, lines, redact).Crashed? && !limited
      ensures !crashed && !limited ==> OneByOne(s, lines, redact) == Done(repository.State(), sum)
      ensures limited && OneByOne(s, lines, redact).Done? ==> maxErrors <= OneByOne(s, lines, redact).sum.Errors()
      ensures !crashed ==> sum.Balanced()
      ensures limited ==> maxErrors <= sum.Errors()
      ensures !crashed ==> OneByOne(s, lines[..k], redact) == Done(repository.State(), sum)
      ensures !crashed && !limited ==> k == |lines|
    {
      hide Step, OneByOne, Drain, Tracks, Redacted, Inv;
      sum, crashed, limited, k := ZERO, false, false, 0;
      TracksStart(s, lines, redact);
      var pending: seq<Event> := [];
      var i := 0;
      while i < |lines|
        invariant k <= i && i <= |lines| && repository.Valid()
        invariant Tracks(s, lines, i, redact, repository.State(), sum, pending)
        invariant repository.State() == OneByOne(s, lines[..k], redact).store
      {
        sum, pending, crashed, k := Consume(s, lines, i, k, sum, pending, batchSize);
        i := i + 1;
        if crashed { return; }
        if !lines[i - 1].Blank? && sum.Errors() >= maxErrors {
          StopsOnlyWithErrors(s, lines, i, redact, repository.State(), sum, pending);
          sum, crashed, k := FlushPending(s, lines, i, k, sum, pending);
          limited := !crashed;
          return;
        }
      }
      assert lines[..i] == lines;
      sum, crashed, k := FlushPending(s, lines, i, k, sum, pending);
    }

    /** The body of the loop over lines, up to the error check. */
    method Consume(ghost s: Store, lines: seq<Line>, i: nat, ghost base: nat, sum: Summary, pending: seq<Event>,
                   batchSize: int)
      returns (r: Summary, left: seq<Event>, crashed: bool, ghost reached: nat)
      requires repository.Valid() && base <= i < |lines|
      requires Tracks(s, lines, i, redact, repository.State(), sum, pending)
      requires repository.State() == OneByOne(s, lines[..base], redact).store
      modifies repository
      ensures repository.Valid() && reached <= i + 1
      ensures !crashed ==> Tracks(s, lines, i + 1, redact, repository.State(), r, left)
      ensures repository.State() == OneByOne(s, lines[..reached], redact).store
      ensures crashed ==> OneByOne(s, lines, redact).Crashed?
    {
      hide Step;
      ReadLine(s, lines, i, redact, repository.State(), sum, pending);
      r, left, crashed, reached := sum, pending, false, base;
      match lines[i]
      case Blank =>
      case Invalid =>
        r := sum.(total := sum.total + 1, invalid := sum.invalid + 1);
      case Record(e) =>
        r := sum.(total := sum.total + 1);
        left := pending + [e];
        if |left| >= Max(1, batchSize) {
          r, crashed, reached := FlushPending(s, lines, i + 1, base, r, left);
          left := [];
        }
    }

    /** A flush inside the replay of `lines[..i]`. */
    method FlushPending(ghost s: Store, ghost lines: seq<Line>, ghost i: nat, ghost base: nat,
                        sum: Summary, pending: seq<Event>)
      returns (r: Summary, crashed: bool, ghost reached: nat)
      requires repository.Valid() && base <= i <= |lines|
      requires Tracks(s, lines, i, redact, repository.State(), sum, pending)
      requires repository.State() == OneByOne(s, lines[..base], redact).store
      modifies repository
      ensures repository.Valid() && reached <= i
      ensures !crashed ==> Tracks(s, lines, i, redact, repository.State(), r, []) && r.Balanced()
      ensures !crashed ==> reached == i && OneByOne(s, lines[..i], redact) == Done(repository.State(), r)
      ensures repository.State() == OneByOne(s, lines[..reached], redact).store
      ensures sum.Errors() <= r.Errors()
      ensures crashed ==> OneByOne(s, lines, redact).Crashed?
    {
      hide Step;
      ghost var here := Done(repository.State(), sum);
      ghost var red := Redacted(pending, redact);
      r, crashed := Flush(sum, pending);
      DrainStore(here.store, sum, ZERO, red);
      reached := if FirstRejected(Run(here.store, red).verdicts) == Some(Fault) then base else i;
      if crashed {
        CrashedPrefix(s, lines, redact, i);
        r := sum;
      } else {
        NoFaultFirst(here.store, sum, red);
        DrainErrors(here, red);
      }
    }
  }

  lemma NoFaultFirst(s: Store, sum: Summary, es: seq<Event>)
    requires Drain(Done(s, sum), es).Done?
    ensures FirstRejected(Run(s, es).verdicts) != Some(Fault)
  {
    hide Step;
    if FirstRejected(Run(s, es).verdicts) == Some(Fault) {
      var k := FindRejection(Run(s, es).verdicts);
      DrainFaults(s, sum, es, k);
    }
  }

  /** The replay state after `i` lines: draining what is pending gives the reference. */
  ghost predicate Tracks(s: Store, lines: seq<Line>, i: nat, redact: Event -> Event,
                         store: Store, sum: Summary, pending: seq<Event>)
  {
    && i <= |lines|
    && Drain(Done(store, sum), Redacted(pending, redact)) == OneByOne(s, lines[..i], redact)
    && sum.accepted + sum.duplicates + sum.conflicts + sum.invalid + |pending| == sum.total
  }

  lemma TracksStart(s: Store, lines: seq<Line>, redact: Event -> Event)
    ensures Tracks(s, lines, 0, redact, s, ZERO, []) && OneByOne(s, lines[..0], redact).store == s
  {
    hide Step;
  }

  lemma ReadLine(s: Store, lines: seq<Line>, i: nat, redact: Event -> Event,
                 store: Store, sum: Summary, pending: seq<Event>)
    requires i < |lines| && Tracks(s, lines, i, redact, store, sum, pending)
    ensures match lines[i]
            case Blank => Tracks(s, lines, i + 1, redact, store, sum, pending)
            case Invalid =>
              Tracks(s, lines, i + 1, redact, store, sum.(total := sum.total + 1, invalid := sum.invalid + 1), pending)
            case Record(e) =>
              Tracks(s, lines, i + 1, redact, store, sum.(total := sum.total + 1), pending + [e])
  {
    hide Step;
    var here := Done(store, sum);
    assert lines[..i + 1][..i] == lines[..i];
    match lines[i]
    case Blank =>
    case Invalid =>
      DrainBump(here, Redacted(pending, redact), 1, 1);
    case Record(e) =>
      DrainBump(here, Redacted(pending, redact), 1, 0);
      RedactedSnoc(pending, e, redact);
      DrainSnoc(Bump(here, 1, 0), Redacted(pending, redact), redact(e));
  }

  /** The error limit cannot fire while the reference stays below it. */
  lemma StopsOnlyWithErrors(s: Store, lines: seq<Line>, i: nat, redact: Event -> Event,
                            store: Store, sum: Summary, pending: seq<Event>)
    requires Tracks(s, lines, i, redact, store, sum, pending)
    ensures OneByOne(s, lines, redact).Done? ==> sum.Errors() <= OneByOne(s, lines, redact).sum.Errors()
  {
    hide Step;
    if OneByOne(s, lines, redact).Done? {
      ErrorsGrow(s, lines, redact, i);
      DrainErrors(Done(store, sum), Redacted(pending, redact));
    }
  }

  lemma {:induction false} DrainStore(s: Store, a: Summary, b: Summary, es: seq<Event>)
    ensures Drain(Done(s, a), es).store == Drain(Done(s, b), es).store
    ensures Drain(Done(s, a), es).Crashed? == Drain(Done(s, b), es).Crashed?
    decreases |es|
  {
    hide Step;
    if es != [] {
      DrainStore(s, a, b, es[..|es| - 1]);
    }
  }
}
