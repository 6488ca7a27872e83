/** The two drivers of the queue, each pass a legal run of queue operations in which
    other processes act between any two of its own transactions
    (src/codememory/backlog.py:206-293, src/codememory/workers/extraction.py). */
module Backlog {
  import opened Base
  import opened Events
  import opened Ingest
  import opened IngestTheorems
  import opened Repository
  import Outbox

  datatype Task = Task(id: string, codingEvidence: nat)

  /** What extraction and consolidation of one task come to. */
  datatype Extraction =
    | Extracted(candidates: nat, cards: Consolidation)
    | DuplicateRun(candidates: nat)
    | InProgress(candidates: nat)
    | FailedRun(error: string)
    | DeadRun(error: string)
    | ExtractionRaised(error: string)

  datatype Consolidation = Counts(created: nat, merged: nat, versions: nat) | ConsolidationRaised(error: string)

  datatype Stats = Stats(processed: nat, extracted: nat, duplicates: nat, failed: nat, skipped: nat, empty: nat,
                         candidates: nat, created: nat, merged: nat, versions: nat, completed: nat)

  datatype Result =
    | NoEvidence(task: string)
    | LeaseUnavailable(task: string)
    | Ran(task: string, lease: string, outcome: Extraction)

  /** Does this step end on a failure path? */
  predicate Fails(x: Extraction, consolidate: bool) {
    x.FailedRun? || x.DeadRun? || x.ExtractionRaised? || Doubled(x, consolidate)
  }

  /** Counted as extracted and then, because consolidation raised, as failed too. */
  predicate Doubled(x: Extraction, consolidate: bool) {
    x.Extracted? && consolidate && x.cards.ConsolidationRaised?
  }

  predicate Succeeds(x: Extraction, consolidate: bool) {
    (x.Extracted? || x.DuplicateRun?) && !Doubled(x, consolidate)
  }

  predicate Mine(j: Outbox.Job, task: string) {
    Outbox.OfTask(j, task, Outbox.EVENT_INGESTED)
  }

  const NO_REASON := "task extraction failed"

  function ErrorOf(x: Extraction): string {
    match x
    case Extracted(_, ConsolidationRaised(error)) => error
    case FailedRun(error) => if error == "" then NO_REASON else error
    case DeadRun(error) => if error == "" then NO_REASON else error
    case ExtractionRaised(error) => error
    case _ => ""
  }

  /******* One step as queue operations *******/

  datatype Mode = Mode(consolidate: bool, complete: bool)

  /** What other processes did around a step's own transactions, and its clock readings. */
  datatype Log = Log(before: seq<Outbox.Op>, now: int, during: seq<Outbox.Op>, first: int, between: seq<Outbox.Op>,
                     second: int)

  function Claimed(r: Result): seq<string> { if r.Ran? then [r.lease] else [] }

  predicate Completes(r: Result, m: Mode) { r.Ran? && Succeeds(r.outcome, m.consolidate) && m.complete }

  predicate Parks(r: Result, m: Mode) { r.Ran? && Fails(r.outcome, m.consolidate) }

  /** The write on the leased job. */
  function FirstWrite(l: Log, r: Result, m: Mode): Outbox.Op
    requires r.Ran?
  {
    if Completes(r, m) then Outbox.Complete(l.first, r.lease)
    else if Parks(r, m)
    then Outbox.Fail(l.first, r.lease, Outbox.Exponential, r.outcome.DeadRun?, ErrorOf(r.outcome))
    else Outbox.Release(l.first, r.lease)
  }

  /** The write on the task's waiting jobs, in a transaction of its own. */
  function SecondWrite(l: Log, r: Result, m: Mode): Outbox.Op
    requires Completes(r, m) || Parks(r, m)
  {
    if Completes(r, m) then Outbox.CompleteTask(l.second, r.task, Outbox.EVENT_INGESTED)
    else Outbox.FailTask(l.second, r.task, Outbox.EVENT_INGESTED, r.outcome.DeadRun?, 60, ErrorOf(r.outcome))
  }

  function Lead(l: Log, r: Result): seq<Outbox.Op> {
    l.before + [Outbox.Lease(l.now, l.now + 120, Claimed(r))]
  }

  /** Up to and including the write on the leased job. */
  function Own(l: Log, r: Result, m: Mode): seq<Outbox.Op>
    requires r.Ran?
  {
    Lead(l, r) + l.during + [FirstWrite(l, r, m)]
  }

  function Ops(l: Log, r: Result, m: Mode): seq<Outbox.Op> {
    if r.NoEvidence? then []
    else if r.LeaseUnavailable? then Lead(l, r)
    else if Completes(r, m) || Parks(r, m) then Own(l, r, m) + l.between + [SecondWrite(l, r, m)]
    else Own(l, r, m)
  }

  /** The claim of a step selects the task's oldest available job, or finds none. */
  predicate Claims(q: Outbox.Queue, l: Log, r: Result) {
    !r.NoEvidence? ==>
      Outbox.Claim(Outbox.Exec(q, l.before), l.now, l.now + 120, Some(r.task), Some(Outbox.EVENT_INGESTED), 1,
                   Claimed(r))
  }

  /** How many jobs a step completed: its lease, and the task's waiting jobs. */
  ghost function Finished(q: Outbox.Queue, l: Log, r: Result, m: Mode): nat {
    if !Completes(r, m) then 0
    else
      |Outbox.Touched(Outbox.Exec(q, Lead(l, r) + l.during), FirstWrite(l, r, m))|
      + |Outbox.Touched(Outbox.Exec(q, Own(l, r, m) + l.between), SecondWrite(l, r, m))|
  }

  /** What a step writes, by its outcome: a success completes its lease and the task's waiting
      jobs, or gives the lease back if completion is off; so does a run in progress; a failure
      fails both, for good when the run is dead, and the text says why. */
  lemma WritesExactly(l: Log, r: Result, m: Mode)
    requires r.Ran?
    ensures var raised := m.consolidate && r.outcome.Extracted? && r.outcome.cards.ConsolidationRaised?;
            var good := (r.outcome.Extracted? && !raised) || r.outcome.DuplicateRun?;
            && (good && m.complete ==>
                  FirstWrite(l, r, m) == Outbox.Complete(l.first, r.lease) && Completes(r, m)
                  && SecondWrite(l, r, m) == Outbox.CompleteTask(l.second, r.task, "event.ingested"))
            && ((good && !m.complete) || r.outcome.InProgress? ==>
                  FirstWrite(l, r, m) == Outbox.Release(l.first, r.lease) && !Completes(r, m) && !Parks(r, m))
            && (!good && !r.outcome.InProgress? ==>
                  var why := if raised then r.outcome.cards.error
                             else if r.outcome.error == "" && !r.outcome.ExtractionRaised? then "task extraction failed"
                             else r.outcome.error;
                  && Parks(r, m)
                  && FirstWrite(l, r, m) == Outbox.Fail(l.first, r.lease, Outbox.Exponential, r.outcome.DeadRun?, why)
                  && SecondWrite(l, r, m) ==
                     Outbox.FailTask(l.second, r.task, "event.ingested", r.outcome.DeadRun?, 60, why))
  {
  }

  /** One planned task was worked on exactly so, from queue `q` to queue `t`. */
  predicate Performed(q: Outbox.Queue, l: Log, r: Result, m: Mode, t: Outbox.Queue) {
    Outbox.Legal(q, Ops(l, r, m)) && t == Outbox.Exec(q, Ops(l, r, m)) && Claims(q, l, r)
  }

  lemma AppendLegal(q: Outbox.Queue, a: seq<Outbox.Op>, b: seq<Outbox.Op>)
    requires Outbox.Legal(q, a) && Outbox.Legal(Outbox.Exec(q, a), b)
    ensures Outbox.Legal(q, a + b) && Outbox.Exec(q, a + b) == Outbox.Exec(Outbox.Exec(q, a), b)
  {
    Outbox.LegalAppend(q, a, b);
    Outbox.ExecAppend(q, a, b);
  }

  lemma SplitLegal(q: Outbox.Queue, a: seq<Outbox.Op>, b: seq<Outbox.Op>)
    requires Outbox.Legal(q, a + b)
    ensures Outbox.Legal(q, a) && Outbox.Legal(Outbox.Exec(q, a), b)
    ensures Outbox.Exec(q, a + b) == Outbox.Exec(Outbox.Exec(q, a), b)
  {
    Outbox.LegalAppend(q, a, b);
    Outbox.ExecAppend(q, a, b);
  }

  lemma ThenOne(q: Outbox.Queue, a: seq<Outbox.Op>, op: Outbox.Op)
    requires Outbox.Legal(q, a) && Outbox.Allowed(Outbox.Exec(q, a), op)
    ensures Outbox.Legal(q, a + [op]) && Outbox.Exec(q, a + [op]) == Outbox.Apply(Outbox.Exec(q, a), op)
  {
    hide Outbox.Apply, Outbox.Allowed;
    Outbox.ExecOne(Outbox.Exec(q, a), op);
    AppendLegal(q, a, [op]);
  }

  lemma LastOne(q: Outbox.Queue, a: seq<Outbox.Op>, op: Outbox.Op)
    requires Outbox.Legal(q, a + [op])
    ensures Outbox.Legal(q, a) && Outbox.Allowed(Outbox.Exec(q, a), op)
    ensures Outbox.Exec(q, a + [op]) == Outbox.Apply(Outbox.Exec(q, a), op)
  {
    hide Outbox.Apply, Outbox.Allowed;
    SplitLegal(q, a, [op]);
    Outbox.ExecOne(Outbox.Exec(q, a), op);
  }

  /******* What a step leaves *******/

  /** The claimed job is an available job of the task, and it is leased. */
  lemma ClaimedJob(q: Outbox.Queue, l: Log, r: Result)
    requires r.Ran? && Claims(q, l, r) && Outbox.Legal(q, Lead(l, r))
    ensures var offered, claimed := Outbox.Exec(q, l.before), Outbox.Exec(q, Lead(l, r));
            && r.lease in offered && Outbox.Ready(Outbox.ExpireJob(offered[r.lease], l.now), l.now)
            && r.lease in claimed && Mine(claimed[r.lease], r.task)
            && claimed[r.lease].status.Processing? && claimed[r.lease].lease == Some(l.now + 120)
  {
    hide Outbox.Exec, Outbox.Legal;
    LastOne(q, l.before, Outbox.Lease(l.now, l.now + 120, [r.lease]));
    var expired := Outbox.Expired(Outbox.Exec(q, l.before), l.now);
    assert r.lease in [r.lease];
    assert r.lease in Outbox.Candidates(expired, l.now, Some(r.task), Some(Outbox.EVENT_INGESTED));
  }

  predicate Available(q: Outbox.Queue, id: string, task: string, now: int) {
    id in q && Mine(q[id], task) && Outbox.Ready(q[id], now)
  }

  /** A task is leased exactly when one of its jobs is available, and else refused. */
  lemma LeasedExactly(offered: Outbox.Queue, now: int, r: Result)
    requires !r.NoEvidence?
    requires Outbox.Claim(offered, now, now + 120, Some(r.task), Some(Outbox.EVENT_INGESTED), 1, Claimed(r))
    ensures r.Ran? <==> exists id :: Available(Outbox.Expired(offered, now), id, r.task, now)
  {
    hide Outbox.ExpireJob;
    var expired := Outbox.Expired(offered, now);
    var from := Outbox.Candidates(expired, now, Some(r.task), Some(Outbox.EVENT_INGESTED));
    assert |Claimed(r)| == Min(1, |from|);
    if r.Ran? {
      assert Claimed(r)[0] in Claimed(r) && r.lease in from;
      assert Available(expired, r.lease, r.task, now);
    } else {
      assert from == {};
      forall id ensures !Available(expired, id, r.task, now) {
        assert id !in from;
      }
    }
  }

  /** The write on the leased job ends the lease and touches no other row. */
  lemma LeaseGivenUp(mid: Outbox.Queue, l: Log, r: Result, m: Mode)
    requires r.Ran? && r.lease in mid
    ensures var one := Outbox.Apply(mid, FirstWrite(l, r, m));
            && one.Keys == mid.Keys && !one[r.lease].status.Processing?
            && (mid[r.lease].status.Processing? && Completes(r, m) ==> one[r.lease].status.Completed?)
            && (mid[r.lease].status.Processing? && r.outcome.DeadRun? ==> one[r.lease].status.Dead?)
            && (forall id :: id in mid && id != r.lease ==> one[id] == mid[id])
  {
    hide Outbox.RetryTime;
  }

  /** The write on the task leaves none of its jobs waiting after a success or a dead run
      and none pending after a failure; leased rows and other tasks' rows stay. */
  lemma TaskSettled(found: Outbox.Queue, l: Log, r: Result, m: Mode)
    requires Completes(r, m) || Parks(r, m)
    ensures var end := Outbox.Apply(found, SecondWrite(l, r, m));
            && end.Keys == found.Keys
            && (Completes(r, m) || r.outcome.DeadRun? ==>
                  forall id :: id in end && Mine(end[id], r.task) ==> !Outbox.Waiting(end[id]))
            && (forall id :: id in end && Mine(end[id], r.task) ==> !end[id].status.Pending?)
            && (forall id :: id in found && (found[id].status.Processing? || !Mine(found[id], r.task)) ==>
                  end[id] == found[id])
  {
  }

  /** What holds of a step however other processes interleave with it: its lease is over
      and only a new claim can make the job processing again; a job it completed stays
      completed; after a success with completion no job of the task waits, after a
      failure none is pending, after a dead run none waits. */
  lemma StepLeaves(q: Outbox.Queue, l: Log, r: Result, m: Mode, t: Outbox.Queue)
    requires Performed(q, l, r, m, t) && r.Ran?
    ensures r.lease in t && Mine(t[r.lease], r.task)
    ensures t[r.lease].status.Processing? ==> exists k :: 0 <= k < |l.between| && ClaimsJob(l.between[k], r.lease)
    ensures var mid := Outbox.Exec(q, Lead(l, r) + l.during);
            Completes(r, m) && r.lease in mid && mid[r.lease].status.Processing? ==> t[r.lease].status.Completed?
    ensures Completes(r, m) || r.outcome.DeadRun? ==>
              forall id :: id in t && Mine(t[id], r.task) ==> !Outbox.Waiting(t[id])
    ensures Parks(r, m) ==> forall id :: id in t && Mine(t[id], r.task) ==> !t[id].status.Pending?
  {
    hide Outbox.Exec, Outbox.Legal, Outbox.Apply, Outbox.Allowed, Outbox.Waiting, Outbox.Claim, Outbox.OfTask;
    hide Lead, FirstWrite, SecondWrite, Claims;
    var lead := Lead(l, r);
    var mid := Outbox.Exec(q, lead + l.during);
    var one := Outbox.Exec(q, Own(l, r, m));
    StepParts(q, l, r, m);
    LeaseGivenUp(mid, l, r, m);
    if Completes(r, m) || Parks(r, m) {
      var found := Outbox.Exec(one, l.between);
      BetweenKeeps(one, l, r);
      TaskSettled(found, l, r, m);
      SettledRow(found, l, r, m);
    }
  }

  predicate ClaimsJob(op: Outbox.Op, id: string) { op.Lease? && id in op.ids }

  lemma StepParts(q: Outbox.Queue, l: Log, r: Result, m: Mode)
    requires r.Ran? && Outbox.Legal(q, Ops(l, r, m)) && Claims(q, l, r)
    ensures var mid := Outbox.Exec(q, Lead(l, r) + l.during);
            && r.lease in mid && Mine(mid[r.lease], r.task)
            && Outbox.Legal(q, Own(l, r, m)) && Outbox.Exec(q, Own(l, r, m)) == Outbox.Apply(mid, FirstWrite(l, r, m))
    ensures Mine(Outbox.Apply(Outbox.Exec(q, Lead(l, r) + l.during), FirstWrite(l, r, m))[r.lease], r.task)
    ensures Completes(r, m) || Parks(r, m) ==>
              var one := Outbox.Exec(q, Own(l, r, m));
              && Outbox.Legal(one, l.between)
              && Outbox.Exec(q, Ops(l, r, m)) == Outbox.Apply(Outbox.Exec(one, l.between), SecondWrite(l, r, m))
    ensures !(Completes(r, m) || Parks(r, m)) ==> Outbox.Exec(q, Ops(l, r, m)) == Outbox.Exec(q, Own(l, r, m))
  {
    hide Outbox.Exec, Outbox.Legal, Outbox.Apply, Outbox.Allowed, Outbox.Claim, FirstWrite, SecondWrite, Claims;
    var own := Own(l, r, m);
    if Completes(r, m) || Parks(r, m) {
      LastOne(q, own + l.between, SecondWrite(l, r, m));
      SplitLegal(q, own, l.between);
    }
    LastOne(q, Lead(l, r) + l.during, FirstWrite(l, r, m));
    SplitLegal(q, Lead(l, r), l.during);
    ClaimedJob(q, l, r);
    var claimed := Outbox.Exec(q, Lead(l, r));
    Outbox.TerminalForever(claimed, l.during, r.lease);
    FirstKeeps(Outbox.Exec(q, Lead(l, r) + l.during), l, r, m);
  }

  lemma FirstKeeps(mid: Outbox.Queue, l: Log, r: Result, m: Mode)
    requires r.Ran? && r.lease in mid && Mine(mid[r.lease], r.task)
    ensures Mine(Outbox.Apply(mid, FirstWrite(l, r, m))[r.lease], r.task)
  {
    hide Outbox.RetryTime;
  }

  lemma BetweenKeeps(one: Outbox.Queue, l: Log, r: Result)
    requires r.Ran? && Outbox.Legal(one, l.between) && r.lease in one && !one[r.lease].status.Processing?
    requires Mine(one[r.lease], r.task)
    ensures var found := Outbox.Exec(one, l.between);
            && r.lease in found && Mine(found[r.lease], r.task)
            && (found[r.lease].status.Processing? ==>
                exists k :: 0 <= k < |l.between| && ClaimsJob(l.between[k], r.lease))
            && (one[r.lease].status.Completed? ==> found[r.lease].status.Completed?)
  {
    hide Outbox.Exec, Outbox.Legal;
    Outbox.TerminalForever(one, l.between, r.lease);
    if Outbox.Exec(one, l.between)[r.lease].status.Processing? {
      Outbox.OnlyClaimsLease(one, l.between, r.lease);
      var k :| 0 <= k < |l.between| && l.between[k].Lease? && r.lease in l.between[k].ids;
      assert ClaimsJob(l.between[k], r.lease);
    }
  }

  lemma SettledRow(found: Outbox.Queue, l: Log, r: Result, m: Mode)
    requires (Completes(r, m) || Parks(r, m)) && r.lease in found && Mine(found[r.lease], r.task)
    ensures var k := Outbox.Apply(found, SecondWrite(l, r, m))[r.lease];
            && Mine(k, r.task) && (k.status.Processing? ==> found[r.lease].status.Processing?)
            && (found[r.lease].status.Completed? ==> k.status.Completed?)
  {
  }

  datatype Class = IsRan | IsExtracted | IsDuplicate | IsFailed | IsSkipped | IsDoubled

  predicate InClass(r: Result, c: Class, consolidate: bool) {
    match c
    case IsRan => r.Ran?
    case IsExtracted => r.Ran? && r.outcome.Extracted?
    case IsDuplicate => r.Ran? && r.outcome.DuplicateRun?
    case IsFailed => r.Ran? && Fails(r.outcome, consolidate)
    case IsSkipped => r.Ran? ==> r.outcome.InProgress?
    case IsDoubled => r.Ran? && Doubled(r.outcome, consolidate)
  }

  function Number(results: seq<Result>, c: Class, consolidate: bool): nat
    decreases |results|
  {
    if results == [] then 0
    else
      Number(results[..|results| - 1], c, consolidate)
      + if InClass(results[|results| - 1], c, consolidate) then 1 else 0
  }

  datatype Sum = OfCandidates | OfEmpty | OfCreated | OfMerged | OfVersions

  /** What one result adds to a sum. */
  function Amount(r: Result, k: Sum, consolidate: bool): nat {
    if !r.Ran? then 0
    else match (k, r.outcome)
      case (OfCandidates, Extracted(n, _)) => n
      case (OfCandidates, DuplicateRun(n)) => n
      case (OfCandidates, InProgress(n)) => n
      case (OfEmpty, Extracted(n, _)) => if n == 0 then 1 else 0
      case (OfCreated, Extracted(_, Counts(created, _, _))) => if consolidate then created else 0
      case (OfMerged, Extracted(_, Counts(_, merged, _))) => if consolidate then merged else 0
      case (OfVersions, Extracted(_, Counts(_, _, versions))) => if consolidate then versions else 0
      case _ => 0
  }

  function Total(results: seq<Result>, k: Sum, consolidate: bool): nat
    decreases |results|
  {
    if results == [] then 0
    else Total(results[..|results| - 1], k, consolidate) + Amount(results[|results| - 1], k, consolidate)
  }

  /** The counters are the numbers of results of each class and the sums over them. */
  ghost predicate Counted(stats: Stats, results: seq<Result>, consolidate: bool) {
    && stats.processed == Number(results, IsRan, consolidate)
    && stats.extracted == Number(results, IsExtracted, consolidate)
    && stats.duplicates == Number(results, IsDuplicate, consolidate)
    && stats.failed == Number(results, IsFailed, consolidate)
    && stats.skipped == Number(results, IsSkipped, consolidate)
    && stats.candidates == Total(results, OfCandidates, consolidate)
    && stats.empty == Total(results, OfEmpty, consolidate)
    && stats.created == Total(results, OfCreated, consolidate)
    && stats.merged == Total(results, OfMerged, consolidate)
    && stats.versions == Total(results, OfVersions, consolidate)
  }

  /** The classes cover every result once, except that a task whose consolidation
      raised is both extracted and failed. */
  lemma {:induction false} ClassesCover(results: seq<Result>, consolidate: bool)
    ensures Number(results, IsExtracted, consolidate) + Number(results, IsDuplicate, consolidate)
            + Number(results, IsFailed, consolidate) + Number(results, IsSkipped, consolidate)
            == |results| + Number(results, IsDoubled, consolidate)
    decreases |results|
  {
    if results != [] {
      ClassesCover(results[..|results| - 1], consolidate);
    }
  }

  /******* A whole pass *******/

  function PassOps(logs: seq<Log>, results: seq<Result>, m: Mode): seq<Outbox.Op>
    requires |logs| == |results|
    decreases |results|
  {
    if results == [] then []
    else
      var n := |results| - 1;
      PassOps(logs[..n], results[..n], m) + Ops(logs[n], results[n], m)
  }

  /** How many jobs a pass completed. */
  ghost function FinishedAll(q: Outbox.Queue, logs: seq<Log>, results: seq<Result>, m: Mode): nat
    requires |logs| == |results|
    decreases |results|
  {
    if results == [] then 0
    else
      var n := |results| - 1;
      FinishedAll(q, logs[..n], results[..n], m)
      + Finished(Outbox.Exec(q, PassOps(logs[..n], results[..n], m)), logs[n], results[n], m)
  }

  lemma FinishedMore(q: Outbox.Queue, logs: seq<Log>, results: seq<Result>, m: Mode, s: Outbox.Queue, l: Log, r: Result)
    requires PassDone(q, logs, results, m, s)
    ensures |logs| == |results|
    ensures FinishedAll(q, logs + [l], results + [r], m) == FinishedAll(q, logs, results, m) + Finished(s, l, r, m)
  {
    hide Outbox.Exec, Outbox.Legal, PassOps, Finished, Claims;
    assert (logs + [l])[..|logs|] == logs && (results + [r])[..|results|] == results;
  }

  /** The pass is one legal run of the queue from `q` to `t`, every claim of it taking the
      task's oldest available job. */
  predicate PassDone(q: Outbox.Queue, logs: seq<Log>, results: seq<Result>, m: Mode, t: Outbox.Queue) {
    && |logs| == |results|
    && Outbox.Legal(q, PassOps(logs, results, m)) && t == Outbox.Exec(q, PassOps(logs, results, m))
    && forall i :: 0 <= i < |results| ==>
       Claims(Outbox.Exec(q, PassOps(logs[..i], results[..i], m)), logs[i], results[i])
  }

  lemma PassMore(q: Outbox.Queue, logs: seq<Log>, results: seq<Result>, m: Mode, s: Outbox.Queue, l: Log, r: Result,
                 t: Outbox.Queue)
    requires PassDone(q, logs, results, m, s) && Performed(s, l, r, m, t)
    ensures PassDone(q, logs + [l], results + [r], m, t)
  {
    hide Outbox.Exec, Outbox.Legal, Ops, Claims;
    var n := |results|;
    assert (logs + [l])[..n] == logs && (results + [r])[..n] == results;
    AppendLegal(q, PassOps(logs, results, m), Ops(l, r, m));
    forall i | 0 <= i < n + 1
      ensures Claims(Outbox.Exec(q, PassOps((logs + [l])[..i], (results + [r])[..i], m)), (logs + [l])[i],
                     (results + [r])[i])
    {
      if i < n {
        assert (logs + [l])[..i] == logs[..i] && (results + [r])[..i] == results[..i];
      }
    }
  }

  lemma NoPass(q: Outbox.Queue, m: Mode)
    ensures PassDone(q, [], [], m, q)
  {
  }

  /** The pass up to its last step. */
  lemma PassFront(q: Outbox.Queue, logs: seq<Log>, results: seq<Result>, m: Mode, t: Outbox.Queue)
    returns (s: Outbox.Queue)
    requires PassDone(q, logs, results, m, t) && results != []
    ensures var n := |results| - 1;
            PassDone(q, logs[..n], results[..n], m, s) && Performed(s, logs[n], results[n], m, t)
  {
    hide Outbox.Exec, Outbox.Legal, Ops, Claims;
    var n := |results| - 1;
    var before := PassOps(logs[..n], results[..n], m);
    SplitLegal(q, before, Ops(logs[n], results[n], m));
    s := Outbox.Exec(q, before);
    forall k | 0 <= k < n
      ensures Claims(Outbox.Exec(q, PassOps(logs[..n][..k], results[..n][..k], m)), logs[..n][k], results[..n][k])
    {
      assert logs[..n][..k] == logs[..k] && results[..n][..k] == results[..k];
    }
  }

  /** The i-th step of a pass, and what the pass does after it. */
  lemma {:induction false} PassStep(q: Outbox.Queue, logs: seq<Log>, results: seq<Result>, m: Mode, t: Outbox.Queue,
                                    i: nat)
    returns (s: Outbox.Queue, u: Outbox.Queue, later: seq<Outbox.Op>)
    requires PassDone(q, logs, results, m, t) && i < |results|
    ensures s == Outbox.Exec(q, PassOps(logs[..i], results[..i], m)) && Performed(s, logs[i], results[i], m, u)
    ensures PassOps(logs, results, m) == PassOps(logs[..i], results[..i], m) + Ops(logs[i], results[i], m) + later
    ensures Outbox.Legal(u, later) && t == Outbox.Exec(u, later)
    decreases |results|
  {
    hide Outbox.Exec, Outbox.Legal, Ops, Claims, Performed, PassDone, PassOps;
    var n := |results| - 1;
    PassLegal(q, logs, results, m, t);
    var front := PassFront(q, logs, results, m, t);
    PassLegal(q, logs[..n], results[..n], m, front);
    PassOpsLast(logs, results, m);
    if i == n {
      s, u, later := front, t, [];
      NothingMore(t);
      assert PassOps(logs, results, m) + [] == PassOps(logs, results, m);
    } else {
      var more;
      s, u, more := PassStep(q, logs[..n], results[..n], m, front, i);
      assert logs[..n][..i] == logs[..i] && results[..n][..i] == results[..i];
      var last := Ops(logs[n], results[n], m);
      later := more + last;
      PerformedLegal(front, logs[n], results[n], m, t);
      AppendLegal(u, more, last);
      var first := PassOps(logs[..i], results[..i], m) + Ops(logs[i], results[i], m);
      assert first + (more + last) == (first + more) + last;
    }
  }

  lemma PassLegal(q: Outbox.Queue, logs: seq<Log>, results: seq<Result>, m: Mode, t: Outbox.Queue)
    requires PassDone(q, logs, results, m, t)
    ensures |logs| == |results|
    ensures Outbox.Legal(q, PassOps(logs, results, m)) && t == Outbox.Exec(q, PassOps(logs, results, m))
  {
  }

  lemma PassOpsLast(logs: seq<Log>, results: seq<Result>, m: Mode)
    requires |logs| == |results| > 0
    ensures var n := |results| - 1;
            PassOps(logs, results, m) == PassOps(logs[..n], results[..n], m) + Ops(logs[n], results[n], m)
  {
    hide Ops;
  }

  lemma PerformedLegal(q: Outbox.Queue, l: Log, r: Result, m: Mode, t: Outbox.Queue)
    requires Performed(q, l, r, m, t)
    ensures Outbox.Legal(q, Ops(l, r, m)) && t == Outbox.Exec(q, Ops(l, r, m))
  {
  }

  lemma NothingMore(q: Outbox.Queue)
    ensures Outbox.Legal(q, []) && Outbox.Exec(q, []) == q
  {
  }

  /** No pass strands a lease: when it ends, a job it leased is processing only if some
      claim took it after the pass had written it; and a job whose own lease a pass
      completed is still completed at its end. */
  lemma PassStrandsNothing(q: Outbox.Queue, logs: seq<Log>, results: seq<Result>, m: Mode, t: Outbox.Queue, i: nat)
    returns (own: seq<Outbox.Op>, later: seq<Outbox.Op>)
    requires PassDone(q, logs, results, m, t) && i < |results| && results[i].Ran?
    ensures PassOps(logs, results, m) == own + later
    ensures own == PassOps(logs[..i], results[..i], m) + Own(logs[i], results[i], m)
    ensures var lease := results[i].lease;
            && lease in Outbox.Exec(q, own) && !Outbox.Exec(q, own)[lease].status.Processing?
            && lease in t
            && (t[lease].status.Processing? ==>
                exists k :: 0 <= k < |later| && ClaimsJob(later[k], lease))
            && (Outbox.Exec(q, own)[lease].status.Completed? ==> t[lease].status.Completed?)
  {
    hide Outbox.Exec, Outbox.Legal, Outbox.Apply, Outbox.Claim, Claims, FirstWrite, SecondWrite, Lead, PassDone,
      PassOps;
    PassLegal(q, logs, results, m, t);
    var l, r := logs[i], results[i];
    var before := PassOps(logs[..i], results[..i], m);
    var s, u, rest := PassStep(q, logs, results, m, t, i);
    own := before + Own(l, r, m);
    later := (if Completes(r, m) || Parks(r, m) then l.between + [SecondWrite(l, r, m)] else []) + rest;
    assert Ops(l, r, m) ==
           Own(l, r, m) + if Completes(r, m) || Parks(r, m) then l.between + [SecondWrite(l, r, m)] else [];
    assert PassOps(logs, results, m) == own + later;
    SplitLegal(q, own, later);
    SplitLegal(q, before, Own(l, r, m));
    StepParts(s, l, r, m);
    LeaseGivenUp(Outbox.Exec(s, Lead(l, r) + l.during), l, r, m);
    NeverBack(Outbox.Exec(q, own), later, r.lease);
  }

  lemma NeverBack(q: Outbox.Queue, later: seq<Outbox.Op>, id: string)
    requires Outbox.Legal(q, later) && id in q && !q[id].status.Processing?
    ensures var t := Outbox.Exec(q, later);
            && id in t && (t[id].status.Processing? ==> exists k :: 0 <= k < |later| && ClaimsJob(later[k], id))
            && (q[id].status.Completed? ==> t[id].status.Completed?)
            && (q[id].status.Dead? ==> t[id].status.Dead?)
  {
    hide Outbox.Exec, Outbox.Legal;
    Outbox.TerminalForever(q, later, id);
    if Outbox.Exec(q, later)[id].status.Processing? {
      Outbox.OnlyClaimsLease(q, later, id);
      var k :| 0 <= k < |later| && later[k].Lease? && id in later[k].ids;
      assert ClaimsJob(later[k], id);
    }
  }

  class Service {
    const repository: MemoryRepository

    constructor (repository: MemoryRepository)
      ensures this.repository == repository
    {
      this.repository := repository;
    }

    /** Other processes between two calls: any number of ingests and any queue
        operations on any jobs, this service's own leases included. */
    method Others() returns (ghost ops: seq<Outbox.Op>)
      requires repository.Valid()
      modifies repository
      ensures repository.Valid()
      ensures Outbox.Legal(old(repository.jobs), ops) && repository.jobs == Outbox.Exec(old(repository.jobs), ops)
    {
      hide Inv, Step, Outbox.Legal, Outbox.Exec;
      var n: int := *;
      n := Max(n, 0);
      ghost var start := repository.jobs;
      ops := [];
      NothingMore(start);
      for i := 0 to n
        invariant repository.Valid() && Outbox.Legal(start, ops) && repository.jobs == Outbox.Exec(start, ops)
      {
        ghost var more := OneOther();
        AppendLegal(start, ops, more);
        ops := ops + more;
      }
    }

    method OneOther() returns (ghost ops: seq<Outbox.Op>)
      requires repository.Valid()
      modifies repository
      ensures repository.Valid()
      ensures Outbox.Legal(old(repository.jobs), ops) && repository.jobs == Outbox.Exec(old(repository.jobs), ops)
    {
      hide Step, Inv, Outbox.Legal, Outbox.Exec, Outbox.Apply;
      ghost var before := repository.jobs;
      ops := [];
      NothingMore(before);
      var deliver: bool := *;
      if deliver {
        var e: Event := *;
        var v := repository.IngestOne(e);
        ghost var now :| Enqueued(before, repository.jobs, e, v, now);
        if v.Accepted? {
          ops := [Outbox.Enqueue(now, e.id, PayloadOf(e))];
          Outbox.ExecOne(before, ops[0]);
        }
      } else {
        var limit, seconds, jobType, now := Arbitrary();
        var claim: bool := *;
        var op: Outbox.Op := *;
        if claim {
          var ids := repository.ClaimOutbox(limit, seconds, jobType, now);
          ops := [Outbox.Lease(now, now + Max(1, seconds), ids)];
          Outbox.ExecOne(before, ops[0]);
        } else if !op.Enqueue? && !op.Lease? {
          var count := repository.Update(op);
          ops := [op];
          Outbox.ExecOne(before, op);
        }
      }
    }

    method Arbitrary() returns (limit: int, seconds: int, jobType: Option<string>, now: int) {
      limit, seconds, jobType, now := *, *, *, *;
    }

    /** The provider, the extraction store and the consolidator, as an outcome. */
    method ExtractAndConsolidate(task: string) returns (x: Extraction, ghost ops: seq<Outbox.Op>)
      requires repository.Valid()
      modifies repository
      ensures repository.Valid()
      ensures Outbox.Legal(old(repository.jobs), ops) && repository.jobs == Outbox.Exec(old(repository.jobs), ops)
    {
      ops := Others();
      x := *;
    }

    /** The finishing writes after an extraction outcome, other processes acting between
        the two transactions. `l` is completed with what happened. */
    method Finish(ghost q: Outbox.Queue, r: Result, m: Mode, ghost l: Log) returns (completed: nat, ghost log: Log)
      requires repository.Valid() && r.Ran?
      requires Outbox.Legal(q, Lead(l, r) + l.during) && repository.jobs == Outbox.Exec(q, Lead(l, r) + l.during)
      requires Claims(q, l, r)
      modifies repository
      ensures repository.Valid() && Performed(q, log, r, m, repository.jobs)
      ensures log.before == l.before && log.now == l.now && log.during == l.during
      ensures completed == Finished(q, log, r, m)
    {
      hide Inv, Outbox.Apply, Outbox.After, Outbox.Exec, Outbox.Legal, Outbox.Claim;
      completed := 0;
      var now := repository.IsoNow();
      log := l.(first := now);
      ghost var lead := Lead(l, r) + l.during;
      assert Lead(log, r) == Lead(l, r);
      if Completes(r, m) {
        completed := repository.Update(Outbox.Complete(now, r.lease));
      } else if Parks(r, m) {
        var n := repository.Update(Outbox.Fail(now, r.lease, Outbox.Exponential, r.outcome.DeadRun?,
                                              ErrorOf(r.outcome)));
      } else {
        var n := repository.Update(Outbox.Release(now, r.lease));
      }
      ThenOne(q, lead, FirstWrite(log, r, m));
      if Completes(r, m) || Parks(r, m) {
        ghost var own := Own(log, r, m);
        ghost var others := Others();
        AppendLegal(q, own, others);
        var later := repository.IsoNow();
        log := log.(between := others, second := later);
        if Completes(r, m) {
          var n := repository.Update(Outbox.CompleteTask(later, r.task, Outbox.EVENT_INGESTED));
          completed := completed + n;
        } else {
          var n := repository.Update(Outbox.FailTask(later, r.task, Outbox.EVENT_INGESTED, r.outcome.DeadRun?, 60,
                                                     ErrorOf(r.outcome)));
        }
        assert Own(log, r, m) == own;
        ThenOne(q, own + others, SecondWrite(log, r, m));
      }
    }

    /** The step of one planned task. */
    method ProcessTask(item: Task, m: Mode, includeNonCoding: bool, stats: Stats)
      returns (result: Result, s: Stats, ghost log: Log)
      requires repository.Valid()
      modifies repository
      ensures repository.Valid() && Performed(old(repository.jobs), log, result, m, repository.jobs)
      ensures result.task == item.id
      ensures result.NoEvidence? <==> item.codingEvidence == 0 && !includeNonCoding
      ensures s.completed == stats.completed + Finished(old(repository.jobs), log, result, m)
      ensures forall results :: Counted(stats, results, m.consolidate) ==> Counted(s, results + [result], m.consolidate)
    {
      hide Inv, Outbox.Apply, Outbox.Allowed, Outbox.Exec, Outbox.Legal, Outbox.Claim, Counted, Outbox.Oldest;
      ghost var start := repository.jobs;
      log := Log([], 0, [], 0, [], 0);
      NothingMore(start);
      if item.codingEvidence == 0 && !includeNonCoding {
        result, s := NoEvidence(item.id), stats.(skipped := stats.skipped + 1);
        CountOne(stats, s, result, m.consolidate);
        return;
      }
      ghost var before := Others();
      var now := repository.IsoNow();
      var lease := repository.ClaimOutboxForTask(item.id, now);
      log := log.(before := before, now := now);
      ghost var ids := if lease.Some? then [lease.value] else [];
      ClaimAllowed(Outbox.Exec(start, before), now, item.id, ids);
      ThenOne(start, before, Outbox.Lease(now, now + 120, ids));
      if lease.None? {
        result, s := LeaseUnavailable(item.id), stats.(skipped := stats.skipped + 1);
        CountOne(stats, s, result, m.consolidate);
        return;
      }
      result, s, log := RunLeased(start, item.id, lease.value, m, stats, log);
    }

    /** The leased part of a step. */
    method RunLeased(ghost q: Outbox.Queue, task: string, lease: string, m: Mode, stats: Stats, ghost l: Log)
      returns (result: Result, s: Stats, ghost log: Log)
      requires repository.Valid()
      requires var ops := l.before + [Outbox.Lease(l.now, l.now + 120, [lease])];
               Outbox.Legal(q, ops) && repository.jobs == Outbox.Exec(q, ops)
      requires Outbox.Claim(Outbox.Exec(q, l.before), l.now, l.now + 120, Some(task), Some(Outbox.EVENT_INGESTED), 1,
                            [lease])
      modifies repository
      ensures repository.Valid() && result.Ran? && result.task == task
      ensures Performed(q, log, result, m, repository.jobs)
      ensures s.completed == stats.completed + Finished(q, log, result, m)
      ensures forall results :: Counted(stats, results, m.consolidate) ==> Counted(s, results + [result], m.consolidate)
    {
      hide Inv, Outbox.Apply, Outbox.Exec, Outbox.Legal, Outbox.Claim, Counted, Performed;
      var x;
      ghost var during;
      x, during := ExtractAndConsolidate(task);
      result := Ran(task, lease, x);
      log := l.(during := during);
      AppendLegal(q, Lead(log, result), during);
      var completed;
      completed, log := Finish(q, result, m, log);
      s := Count(stats, x, m.consolidate, completed);
      CountOne(stats, s, result, m.consolidate);
    }

    static function Count(stats: Stats, x: Extraction, consolidate: bool, completed: nat): Stats {
      var s := stats.(processed := stats.processed + 1, completed := stats.completed + completed);
      match x
      case Extracted(n, cards) =>
        var t := s.(extracted := s.extracted + 1, candidates := s.candidates + n,
                    empty := s.empty + if n == 0 then 1 else 0);
        if !consolidate then t
        else if cards.ConsolidationRaised? then t.(failed := t.failed + 1)
        else t.(created := t.created + cards.created, merged := t.merged + cards.merged,
                versions := t.versions + cards.versions)
      case DuplicateRun(n) => s.(duplicates := s.duplicates + 1, candidates := s.candidates + n)
      case InProgress(n) => s.(skipped := s.skipped + 1, candidates := s.candidates + n)
      case _ => s.(failed := s.failed + 1)
    }

    /** One pass: one result per planned task, in order; the queue went through exactly
        the operations these results stand for, interleaved with other processes; and
        the four outcome counts exceed the plan exactly by the tasks whose consolidation
        raised after their extraction was counted. */
    method Process(planned: seq<Task>, m: Mode, includeNonCoding: bool)
      returns (results: seq<Result>, stats: Stats, ghost logs: seq<Log>)
      requires repository.Valid()
      modifies repository
      ensures repository.Valid() && PassDone(old(repository.jobs), logs, results, m, repository.jobs)
      ensures |results| == |logs| == |planned|
      ensures forall i :: 0 <= i < |planned| ==>
                results[i].task == planned[i].id
                && (results[i].NoEvidence? <==> planned[i].codingEvidence == 0 && !includeNonCoding)
      ensures Counted(stats, results, m.consolidate)
      ensures stats.completed == FinishedAll(old(repository.jobs), logs, results, m)
      ensures stats.extracted + stats.duplicates + stats.failed + stats.skipped
              == |planned| + Number(results, IsDoubled, m.consolidate)
    {
      hide Inv, PassDone, Performed, Counted, FinishedAll, Finished, Number, Total;
      results, logs := [], [];
      stats := Stats(0, 0, 0, 0, 0, 0, 0, 0, 0, 0, 0);
      ghost var start := repository.jobs;
      NoPass(start, m);
      NothingFinished(start, m);
      NothingCounted(stats, m.consolidate);
      var i := 0;
      while i < |planned|
        invariant i <= |planned| && repository.Valid() && PassDone(start, logs, results, m, repository.jobs)
        invariant |results| == |logs| == i
        invariant forall k :: 0 <= k < i ==>
                    results[k].task == planned[k].id
                    && (results[k].NoEvidence? <==> planned[k].codingEvidence == 0 && !includeNonCoding)
        invariant Counted(stats, results, m.consolidate)
        invariant stats.completed == FinishedAll(start, logs, results, m)
      {
        ghost var before := repository.jobs;
        var result;
        ghost var log;
        result, stats, log := ProcessTask(planned[i], m, includeNonCoding, stats);
        PassMore(start, logs, results, m, before, log, result, repository.jobs);
        FinishedMore(start, logs, results, m, before, log, result);
        results, logs := results + [result], logs + [log];
        i := i + 1;
      }
      ClassesCover(results, m.consolidate);
      CountsOf(stats, results, m.consolidate);
    }
  }

  lemma NothingFinished(q: Outbox.Queue, m: Mode)
    ensures FinishedAll(q, [], [], m) == 0
  {
  }

  lemma NothingCounted(stats: Stats, consolidate: bool)
    requires stats == Stats(0, 0, 0, 0, 0, 0, 0, 0, 0, 0, 0)
    ensures Counted(stats, [], consolidate)
  {
  }

  lemma CountsOf(stats: Stats, results: seq<Result>, consolidate: bool)
    requires Counted(stats, results, consolidate)
    ensures stats.extracted == Number(results, IsExtracted, consolidate)
    ensures stats.duplicates == Number(results, IsDuplicate, consolidate)
    ensures stats.failed == Number(results, IsFailed, consolidate)
    ensures stats.skipped == Number(results, IsSkipped, consolidate)
  {
  }

  lemma ClaimAllowed(q: Outbox.Queue, now: int, task: string, ids: seq<string>)
    requires Outbox.Claim(q, now, now + 120, Some(task), Some(Outbox.EVENT_INGESTED), 1, ids)
    ensures Outbox.Allowed(q, Outbox.Lease(now, now + 120, ids))
  {
  }

  lemma CountOne(stats: Stats, r: Stats, result: Result, consolidate: bool)
    requires r.processed == stats.processed + if InClass(result, IsRan, consolidate) then 1 else 0
    requires r.extracted == stats.extracted + if InClass(result, IsExtracted, consolidate) then 1 else 0
    requires r.duplicates == stats.duplicates + if InClass(result, IsDuplicate, consolidate) then 1 else 0
    requires r.failed == stats.failed + if InClass(result, IsFailed, consolidate) then 1 else 0
    requires r.skipped == stats.skipped + if InClass(result, IsSkipped, consolidate) then 1 else 0
    requires r.candidates == stats.candidates + Amount(result, OfCandidates, consolidate)
    requires r.empty == stats.empty + Amount(result, OfEmpty, consolidate)
    requires r.created == stats.created + Amount(result, OfCreated, consolidate)
    requires r.merged == stats.merged + Amount(result, OfMerged, consolidate)
    requires r.versions == stats.versions + Amount(result, OfVersions, consolidate)
    ensures forall results :: Counted(stats, results, consolidate) ==> Counted(r, results + [result], consolidate)
  {
    forall results | Counted(stats, results, consolidate) ensures Counted(r, results + [result], consolidate) {
      assert (results + [result])[..|results|] == results;
    }
  }

  /******* The per-job worker *******/

  datatype WorkerResult = WorkerResult(job: string, outcome: Option<Extraction>)

  /** What other processes did before the write on a job, and the clock at the write. */
  datatype WorkerLog = WorkerLog(during: seq<Outbox.Op>, at: int)

  predicate WorkerFails(r: WorkerResult) {
    r.outcome.None? || r.outcome.value.FailedRun? || r.outcome.value.DeadRun? || r.outcome.value.ExtractionRaised?
  }

  /** The worker's write on one claimed job. */
  function WorkerWrite(l: WorkerLog, r: WorkerResult): Outbox.Op {
    if !WorkerFails(r) then Outbox.Complete(l.at, r.job)
    else if r.outcome.None?
    then Outbox.Fail(l.at, r.job, Outbox.Exponential, true, "event.ingested job has no task_id")
    else Outbox.Fail(l.at, r.job, Outbox.Exponential, r.outcome.value.DeadRun?, r.outcome.value.error)
  }

  function WorkerOps(logs: seq<WorkerLog>, results: seq<WorkerResult>): seq<Outbox.Op>
    requires |logs| == |results|
    decreases |results|
  {
    if results == [] then []
    else
      var n := |results| - 1;
      WorkerOps(logs[..n], results[..n]) + logs[n].during + [WorkerWrite(logs[n], results[n])]
  }

  /** A worker pass is one legal run of the queue: one claim of the oldest available jobs,
      then one write for each claimed job in claim order, others acting in between. */
  predicate WorkerDone(q: Outbox.Queue, now: int, until: int, limit: nat, jobs: seq<string>, logs: seq<WorkerLog>,
                       results: seq<WorkerResult>, t: Outbox.Queue)
  {
    && |logs| == |results| == |jobs| && (forall i :: 0 <= i < |jobs| ==> results[i].job == jobs[i])
    && Outbox.Claim(q, now, until, None, Some(Outbox.EVENT_INGESTED), limit, jobs)
    && var ops := [Outbox.Lease(now, until, jobs)] + WorkerOps(logs, results);
       Outbox.Legal(q, ops) && t == Outbox.Exec(q, ops)
  }

  /** The write on a claimed job ends its lease: completed after a success, dead or to be
      retried after a failure; no other row changes. */
  lemma WorkerLeaves(mid: Outbox.Queue, l: WorkerLog, r: WorkerResult)
    requires r.job in mid
    ensures var t := Outbox.Apply(mid, WorkerWrite(l, r));
            && t.Keys == mid.Keys && !t[r.job].status.Processing?
            && (mid[r.job].status.Processing? ==>
                  if WorkerFails(r) then t[r.job].status.Retry? || t[r.job].status.Dead?
                  else t[r.job].status.Completed?)
            && (forall id :: id in mid && id != r.job ==> t[id] == mid[id])
  {
    hide Outbox.RetryTime;
  }

  lemma {:induction false} WorkerSplit(logs: seq<WorkerLog>, results: seq<WorkerResult>, i: nat)
    returns (own: seq<Outbox.Op>, later: seq<Outbox.Op>)
    requires |logs| == |results| && i < |results|
    ensures own == WorkerOps(logs[..i], results[..i]) + logs[i].during
    ensures WorkerOps(logs, results) == own + [WorkerWrite(logs[i], results[i])] + later
    decreases |results|
  {
    hide WorkerWrite;
    own := WorkerOps(logs[..i], results[..i]) + logs[i].during;
    var n := |results| - 1;
    if i == n {
      later := [];
      assert own + [WorkerWrite(logs[i], results[i])] + [] == own + [WorkerWrite(logs[i], results[i])];
    } else {
      var o, more := WorkerSplit(logs[..n], results[..n], i);
      assert logs[..n][..i] == logs[..i] && results[..n][..i] == results[..i];
      later := more + (logs[n].during + [WorkerWrite(logs[n], results[n])]);
      var first := own + [WorkerWrite(logs[i], results[i])];
      assert first + more + logs[n].during + [WorkerWrite(logs[n], results[n])] == first + later;
    }
  }

  /** No worker pass strands a lease: when it ends, a claimed job is processing only if some
      claim took it after its write; a job it completed while it held it stays completed. */
  lemma WorkerStrandsNothing(q: Outbox.Queue, now: int, until: int, limit: nat, jobs: seq<string>, logs: seq<WorkerLog>,
                             results: seq<WorkerResult>, t: Outbox.Queue, i: nat)
    returns (own: seq<Outbox.Op>, later: seq<Outbox.Op>)
    requires WorkerDone(q, now, until, limit, jobs, logs, results, t) && i < |jobs|
    ensures [Outbox.Lease(now, until, jobs)] + WorkerOps(logs, results) ==
            own + [WorkerWrite(logs[i], results[i])] + later
    ensures own == [Outbox.Lease(now, until, jobs)] + (WorkerOps(logs[..i], results[..i]) + logs[i].during)
    ensures jobs[i] in t
    ensures t[jobs[i]].status.Processing? ==>
              exists k :: 0 <= k < |later| && ClaimsJob(later[k], jobs[i])
    ensures var mid := Outbox.Exec(q, own);
            jobs[i] in mid
            && (mid[jobs[i]].status.Processing? && !WorkerFails(results[i]) ==> t[jobs[i]].status.Completed?)
  {
    hide Outbox.Exec, Outbox.Legal, Outbox.Apply, Outbox.Allowed, Outbox.Oldest, WorkerWrite, WorkerOps;
    var lease := Outbox.Lease(now, until, jobs);
    var o, more := WorkerSplit(logs, results, i);
    own, later := [lease] + o, more;
    var write := WorkerWrite(logs[i], results[i]);
    assert [lease] + WorkerOps(logs, results) == own + [write] + later;
    SplitLegal(q, own + [write], later);
    LastOne(q, own, write);
    SplitLegal(q, [lease], o);
    Outbox.ExecOne(q, lease);
    assert jobs[i] in jobs;
    LeasedJob(q, lease, jobs[i]);
    Outbox.TerminalForever(Outbox.Exec(q, [lease]), o, jobs[i]);
    WorkerLeaves(Outbox.Exec(q, own), logs[i], results[i]);
    NeverBack(Outbox.Exec(q, own + [write]), later, jobs[i]);
  }

  lemma LeasedJob(q: Outbox.Queue, op: Outbox.Op, id: string)
    requires op.Lease? && Outbox.Allowed(q, op) && id in op.ids
    ensures id in Outbox.Apply(q, op) && Outbox.Apply(q, op)[id].payload == q[id].payload
  {
  }

  class ExtractionWorker {
    const service: Service

    constructor (service: Service)
      ensures this.service == service
    {
      this.service := service;
    }

    method WorkJob(job: string) returns (r: WorkerResult, ghost log: WorkerLog)
      requires service.repository.Valid() && job in service.repository.jobs
      modifies service.repository
      ensures service.repository.Valid() && r.job == job
      ensures r.outcome.None? <==> old(service.repository.jobs)[job].payload.task == ""
      ensures var ops := log.during + [WorkerWrite(log, r)];
              Outbox.Legal(old(service.repository.jobs), ops)
              && service.repository.jobs == Outbox.Exec(old(service.repository.jobs), ops)
    {
      hide Inv, Outbox.Apply, Outbox.Legal, Outbox.Exec;
      ghost var start := service.repository.jobs;
      var task := service.repository.jobs[job].payload.task;
      ghost var during;
      if task == "" {
        during := service.Others();
        r := WorkerResult(job, None);
      } else {
        var x;
        x, during := service.ExtractAndConsolidate(task);
        r := WorkerResult(job, Some(x));
      }
      var now := service.repository.IsoNow();
      log := WorkerLog(during, now);
      var count;
      if r.outcome.None? {
        count := service.repository.Update(Outbox.Fail(now, job, Outbox.Exponential, true,
                                                       "event.ingested job has no task_id"));
      } else if WorkerFails(r) {
        var x := r.outcome.value;
        count := service.repository.Update(Outbox.Fail(now, job, Outbox.Exponential, x.DeadRun?, x.error));
      } else {
        count := service.repository.Update(Outbox.Complete(now, job));
      }
      ThenOne(start, during, WorkerWrite(log, r));
    }

    /** One pass over the oldest available jobs: `WorkerDone`, and as many completed and
        failed jobs as results of each kind. */
    method RunOnce(limit: int, leaseSeconds: int)
      returns (jobs: seq<string>, results: seq<WorkerResult>, completed: nat, failed: nat, ghost now: int,
               ghost logs: seq<WorkerLog>)
      requires service.repository.Valid()
      modifies service.repository
      ensures service.repository.Valid()
      ensures WorkerDone(old(service.repository.jobs), now, now + Max(1, leaseSeconds), Max(1, Min(limit, 100)), jobs,
                         logs, results, service.repository.jobs)
      ensures forall i :: 0 <= i < |jobs| ==>
                jobs[i] in old(service.repository.jobs)
                && (results[i].outcome.None? <==> old(service.repository.jobs)[jobs[i]].payload.task == "")
      ensures failed == |FailedOnes(results)| && completed + failed == |jobs|
    {
      hide Inv, Outbox.Apply, Outbox.Allowed, Outbox.Oldest, Outbox.Legal, Outbox.Exec, WorkerWrite, FailedOnes;
      ghost var start := service.repository.jobs;
      var clock := service.repository.IsoNow();
      now := clock;
      jobs := service.repository.ClaimOutbox(limit, leaseSeconds, Some(Outbox.EVENT_INGESTED), clock);
      ghost var lease := Outbox.Lease(now, now + Max(1, leaseSeconds), jobs);
      Outbox.ExecOne(start, lease);
      ghost var ops := [lease];
      results, logs, completed, failed := [], [], 0, 0;
      NoneFailed();
      var i := 0;
      while i < |jobs|
        invariant i <= |jobs| && service.repository.Valid()
        invariant |results| == |logs| == i && ops == [lease] + WorkerOps(logs, results)
        invariant Outbox.Legal(start, ops) && service.repository.jobs == Outbox.Exec(start, ops)
        invariant failed == |FailedOnes(results)| && completed + failed == i
        invariant forall k :: 0 <= k < i ==>
                    results[k].job == jobs[k] && jobs[k] in start
                    && (results[k].outcome.None? <==> start[jobs[k]].payload.task == "")
      {
        ghost var before := service.repository.jobs;
        assert jobs[i] in jobs;
        KeptJob(start, ops, lease, WorkerOps(logs, results), jobs[i]);
        ghost var log;
        var r;
        r, log := WorkJob(jobs[i]);
        AppendLegal(start, ops, log.during + [WorkerWrite(log, r)]);
        WorkerMore(logs, results, log, r);
        FailedMore(results, r);
        assert [lease] + WorkerOps(logs + [log], results + [r]) == ops + (log.during + [WorkerWrite(log, r)]);
        ops := ops + (log.during + [WorkerWrite(log, r)]);
        if WorkerFails(r) {
          failed := failed + 1;
        } else {
          completed := completed + 1;
        }
        results, logs := results + [r], logs + [log];
        i := i + 1;
      }
    }
  }

  lemma KeptJob(q: Outbox.Queue, ops: seq<Outbox.Op>, lease: Outbox.Op, rest: seq<Outbox.Op>, id: string)
    requires Outbox.Legal(q, ops) && ops == [lease] + rest && lease.Lease? && id in lease.ids
    ensures id in q && id in Outbox.Exec(q, ops) && Outbox.Exec(q, ops)[id].payload == q[id].payload
  {
    hide Outbox.Exec, Outbox.Legal, Outbox.Apply;
    SplitLegal(q, [lease], rest);
    Outbox.ExecOne(q, lease);
    LeasedJob(q, lease, id);
    Outbox.TerminalForever(Outbox.Exec(q, [lease]), rest, id);
  }

  lemma WorkerMore(logs: seq<WorkerLog>, results: seq<WorkerResult>, log: WorkerLog, r: WorkerResult)
    requires |logs| == |results|
    ensures WorkerOps(logs + [log], results + [r]) == WorkerOps(logs, results) + (log.during + [WorkerWrite(log, r)])
  {
    hide WorkerWrite;
    assert (logs + [log])[..|logs|] == logs && (results + [r])[..|results|] == results;
  }

  function FailedOnes(results: seq<WorkerResult>): seq<WorkerResult>
    decreases |results|
  {
    if results == [] then []
    else
      var last := results[|results| - 1];
      FailedOnes(results[..|results| - 1]) + if WorkerFails(last) then [last] else []
  }

  lemma NoneFailed()
    ensures FailedOnes([]) == []
  {
  }

  lemma FailedMore(results: seq<WorkerResult>, r: WorkerResult)
    ensures |FailedOnes(results + [r])| == |FailedOnes(results)| + if WorkerFails(r) then 1 else 0
  {
    assert (results + [r])[..|results|] == results;
  }
}
