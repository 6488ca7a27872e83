/** Extraction runs, batch validation and candidate generations
    (src/codememory/extraction/service.py, extraction/store.py). */
module Extraction {
  import opened Base
  import opened Memory
  import opened MemoryTheorems
  import opened Consolidation

  /******* Provider output *******/

  datatype RawBinding = RawBinding(binding: Binding, evidence: seq<string>)

  datatype RawCandidate = RawCandidate(
    id: string, kind: Kind, statement: string, aliases: seq<string>, bindings: seq<RawBinding>,
    evidence: seq<string>, confidence: real, uncertainty: string)
  {
    predicate Typed() { 0.0 <= confidence <= 1.0 }
  }

  datatype Batch = Batch(run: string, project: string, task: string, session: Option<string>, provider: string,
                         sources: seq<string>, candidates: seq<RawCandidate>)

  datatype Context = Context(project: string, task: string, session: Option<string>, events: set<string>)

  function Members(xs: seq<string>): set<string> { set x | x in xs }

  predicate BindingGrounded(b: RawBinding, evidence: seq<string>) {
    && b.evidence != [] && Members(b.evidence) <= Members(evidence)
    && (b.binding.path != "" || b.binding.symbol != "" || b.binding.qualified != "")
  }

  predicate CandidateGrounded(c: RawCandidate, sources: seq<string>, known: set<string>) {
    && c.evidence != [] && Members(c.evidence) <= known && Members(c.evidence) <= Members(sources)
    && forall b :: b in c.bindings ==> BindingGrounded(b, c.evidence)
  }

  /** Everything a batch must satisfy to be linked to the assembled evidence. */
  predicate WellFormed(b: Batch, run: string, provider: string, cx: Context) {
    && b.run == run && b.project == cx.project && b.task == cx.task && b.session == cx.session
    && b.provider == provider
    && b.sources != [] && Members(b.sources) <= cx.events
    && (forall i, k :: 0 <= i < k < |b.candidates| ==> b.candidates[i].id != b.candidates[k].id)
    && (forall c :: c in b.candidates ==> CandidateGrounded(c, b.sources, cx.events))
  }

  method ValidateBindings(c: RawCandidate) returns (ok: bool)
    ensures ok <==> forall b :: b in c.bindings ==> BindingGrounded(b, c.evidence)
  {
    var i := 0;
    while i < |c.bindings|
      invariant i <= |c.bindings| && forall k :: 0 <= k < i ==> BindingGrounded(c.bindings[k], c.evidence)
    {
      var b := c.bindings[i];
      if b.evidence == [] || !(Members(b.evidence) <= Members(c.evidence))
         || (b.binding.path == "" && b.binding.symbol == "" && b.binding.qualified == "") {
        assert !BindingGrounded(c.bindings[i], c.evidence);
        return false;
      }
      i := i + 1;
    }
    return true;
  }

  /** Accepts exactly the well-formed batches. */
  method ValidateBatch(b: Batch, run: string, provider: string, cx: Context) returns (ok: bool)
    ensures ok <==> WellFormed(b, run, provider, cx)
  {
    hide BindingGrounded;
    if b.run != run || b.project != cx.project || b.task != cx.task || b.session != cx.session
       || b.provider != provider || b.sources == [] || !(Members(b.sources) <= cx.events) {
      return false;
    }
    var seen: set<string> := {};
    var i := 0;
    while i < |b.candidates|
      invariant i <= |b.candidates|
      invariant seen == set k | 0 <= k < i :: b.candidates[k].id
      invariant forall k, m :: 0 <= k < m < i ==> b.candidates[k].id != b.candidates[m].id
      invariant forall k :: 0 <= k < i ==> CandidateGrounded(b.candidates[k], b.sources, cx.events)
    {
      var c := b.candidates[i];
      if c.id in seen {
        return false;
      }
      seen := seen + {c.id};
      var bound := ValidateBindings(c);
      if !(Members(c.evidence) <= cx.events) || c.evidence == [] || !(Members(c.evidence) <= Members(b.sources))
         || !bound {
        assert !CandidateGrounded(b.candidates[i], b.sources, cx.events);
        return false;
      }
      i := i + 1;
    }
    return true;
  }

  /******* Fresh candidate ids *******/

  /** The `attempt`-th name tried for a candidate id. */
  function NameOf(base: string, suffix: string, attempt: nat): string {
    if attempt == 0 then base
    else if attempt == 1 then base + "-" + suffix
    else base + "-" + suffix + "-" + Decimal(attempt)
  }

  lemma NamesDiffer(base: string, suffix: string, a: nat, b: nat)
    requires a < b
    ensures NameOf(base, suffix, a) != NameOf(base, suffix, b)
  {
    var stem := base + "-" + suffix;
    if a >= 2 && NameOf(base, suffix, a) == NameOf(base, suffix, b) {
      assert (stem + "-" + Decimal(a))[|stem| + 1..] == Decimal(a);
      assert (stem + "-" + Decimal(b))[|stem| + 1..] == Decimal(b);
      ValueOfDecimal(a);
      ValueOfDecimal(b);
    } else if a == 1 {
      assert |NameOf(base, suffix, b)| > |stem|;
    }
  }

  function Tried(base: string, suffix: string, n: nat): set<string> {
    set i | 0 <= i < n :: NameOf(base, suffix, i)
  }

  lemma {:induction false} TriedSize(base: string, suffix: string, n: nat)
    ensures |Tried(base, suffix, n)| == n
  {
    hide NameOf;
    if n == 0 {
      assert Tried(base, suffix, 0) == {};
    } else {
      TriedSize(base, suffix, n - 1);
      forall i | 0 <= i < n - 1 ensures NameOf(base, suffix, i) != NameOf(base, suffix, n - 1) {
        NamesDiffer(base, suffix, i, n - 1);
      }
      assert Tried(base, suffix, n) == Tried(base, suffix, n - 1) + {NameOf(base, suffix, n - 1)};
    }
  }

  /** The suffix search always ends, after at most as many tries as there are ids. */
  method AvailableId(taken: set<string>, base: string, run: string) returns (id: string)
    ensures id !in taken
    ensures exists n: nat :: n <= |taken| && id == NameOf(base, run[..Min(8, |run|)], n)
  {
    var suffix := run[..Min(8, |run|)];
    var attempt := 0;
    id := base;
    while id in taken
      invariant id == NameOf(base, suffix, attempt) && attempt <= |taken|
      invariant Tried(base, suffix, attempt) <= taken
      decreases |taken| - attempt
    {
      attempt := attempt + 1;
      assert Tried(base, suffix, attempt) <= taken;
      TriedSize(base, suffix, attempt);
      SubsetSize(Tried(base, suffix, attempt), taken);
      id := if attempt == 1 then base + "-" + suffix else base + "-" + suffix + "-" + Decimal(attempt);
    }
  }

  /******* Runs *******/

  datatype RunStatus = Running | Succeeded | RunRetry | RunDead

  datatype Run = Run(id: string, status: RunStatus, attempts: nat)

  datatype Ending = Success | Failure | Crash

  predicate Blocked(r: Option<Run>, force: bool) {
    r.Some? && !force && (r.value.status.Succeeded? || r.value.status.Running? || r.value.status.RunDead?)
  }

  /** One `extract_task` on one input: refused, or one more attempt. */
  function Attempt(r: Option<Run>, newId: string, force: bool, end: Ending): Run {
    if Blocked(r, force) then r.value
    else
      var attempts := if r.Some? then r.value.attempts + 1 else 1;
      var id := if r.Some? then r.value.id else newId;
      Run(id, match end
              case Success => Succeeded
              case Failure => if attempts >= 3 then RunDead else RunRetry
              case Crash => Running,
          attempts)
  }

  function Attempts(ends: seq<Ending>): Option<Run>
    decreases |ends|
  {
    if ends == [] then None
    else Some(Attempt(Attempts(ends[..|ends| - 1]), "", false, ends[|ends| - 1]))
  }

  /** Without force an input is attempted at most three times: each attempt before
      the last failed, the third failure is dead, and a dead, succeeded or running
      run is never attempted again. */
  lemma {:induction false} ThreeAttempts(ends: seq<Ending>)
    ensures ends != [] ==>
              var r := Attempts(ends).value;
              1 <= r.attempts <= 3 && r.attempts <= |ends|
              && (r.status.RunRetry? ==> r.attempts < 3)
              && (r.status.RunDead? ==> r.attempts == 3)
              && (forall i :: 0 <= i < r.attempts - 1 ==> ends[i].Failure?)
              && (r.status.RunRetry? ==> ends[r.attempts - 1].Failure?)
              && (r.attempts < |ends| ==> !r.status.RunRetry?)
    decreases |ends|
  {
    if |ends| > 0 {
      var before := ends[..|ends| - 1];
      ThreeAttempts(before);
      assert forall i :: 0 <= i < |before| ==> before[i] == ends[i];
    }
  }

  datatype RunKey = RunKey(task: string, input: string, extractor: string, prompt: string)

  /** What the provider does: an exception or an answer. */
  datatype Provider = Raises | Answers(batch: Batch)

  datatype Result = Extracted(count: nat) | DuplicateRun | InProgress | DeadLettered | Failed

  class ExtractionStore {
    const db: CardStore
    var runs: map<RunKey, Run>

    constructor (db: CardStore)
      ensures this.db == db && runs == map[]
    {
      this.db, runs := db, map[];
    }

    function Known(key: RunKey): Option<Run>
      reads this
    {
      if key in runs then Some(runs[key]) else None
    }

    static function Stored(c: RawCandidate, id: string, run: string, b: Batch): Candidate {
      Candidate(id, run, b.project, b.task, c.kind, c.statement, c.aliases,
                seq(|c.bindings|, i requires 0 <= i < |c.bindings| => c.bindings[i].binding),
                c.evidence, c.confidence, c.uncertainty)
    }

    /** The row says what the provider observed, for the batch's task and this run. */
    static ghost predicate SaysSame(c: RawCandidate, run: string, b: Batch, row: Candidate) {
      && row.run == run && row.project == b.project && row.task == b.task
      && row.kind == c.kind && row.statement == c.statement && row.aliases == c.aliases && row.evidence == c.evidence
      && row.confidence == c.confidence && row.uncertainty == c.uncertainty
      && |row.bindings| == |c.bindings|
      && forall j :: 0 <= j < |c.bindings| ==> row.bindings[j] == c.bindings[j].binding
    }

    /** Same observations, renamed only where the id was taken. */
    static ghost predicate Renamed(batch: Batch, run: string, stored: seq<Candidate>) {
      && |stored| == |batch.candidates|
      && forall i :: 0 <= i < |stored| ==> SaysSame(batch.candidates[i], run, batch, stored[i])
    }

    static ghost predicate HasRow(rows: map<string, Candidate>, c: RawCandidate, run: string, b: Batch) {
      exists id :: id in rows && rows[id].id == id && SaysSame(c, run, b, rows[id])
    }

    static lemma RowsStored(m: map<string, Candidate>, batch: Batch, run: string, stored: seq<Candidate>)
      requires Renamed(batch, run, stored)
      requires forall k, i :: 0 <= k < i < |stored| ==> stored[k].id != stored[i].id
      requires forall k :: 0 <= k < |stored| ==> stored[k].id !in m
      ensures forall i :: 0 <= i < |batch.candidates| ==> HasRow(WithAll(m, stored), batch.candidates[i], run, batch)
    {
      hide SaysSame, WithAll;
      forall i | 0 <= i < |batch.candidates| ensures HasRow(WithAll(m, stored), batch.candidates[i], run, batch) {
        WithAllLookup(m, stored, stored[i].id);
        assert stored[i] in stored && WithAll(m, stored)[stored[i].id] == stored[i];
      }
    }

    static lemma LegalFresh(s: Store, run: string, stored: seq<Candidate>)
      requires Legal(s, Op.RecordSuccess(run, stored))
      ensures forall k, i :: 0 <= k < i < |stored| ==> stored[k].id != stored[i].id
      ensures forall k :: 0 <= k < |stored| ==> stored[k].id !in Remaining(s, run)
    {
      assert forall k :: 0 <= k < |stored| ==> stored[k] in stored;
    }

    /** Writes a validated batch as the run's next generation: a cited generation
        stays, an uncited one is replaced, and every new row gets a free id. */
    method RecordSuccess(run: string, provider: string, batch: Batch, cx: Context)
      returns (ghost stored: seq<Candidate>)
      requires db.Valid() && WellFormed(batch, run, provider, cx)
      requires forall c :: c in batch.candidates ==> c.Typed()
      requires forall e :: e in cx.events ==> e in db.events && db.events[e] == Owner(cx.project, cx.task)
      modifies db`candidates
      ensures db.Valid() && Renamed(batch, run, stored)
      ensures forall i :: 0 <= i < |batch.candidates| ==> HasRow(db.candidates, batch.candidates[i], run, batch)
      ensures Legal(old(db.State()), Op.RecordSuccess(run, stored))
      ensures db.State() == Apply(old(db.State()), Op.RecordSuccess(run, stored))
    {
      hide Inv, WellFormed, Grounded, Apply, Remaining, WithAll, Renamed;
      ghost var s := db.State();
      ClearGeneration(run);
      stored := WriteAll(run, batch);
      StoredLegal(s, batch, run, provider, cx, stored);
      ApplyRecord(s, run, stored);
      RowsStored(Remaining(s, run), batch, run, stored) by { LegalFresh(s, run, stored); }
      ApplyInv(s, Op.RecordSuccess(run, stored));
    }

    /** Deletes the run's candidates unless one of them is cited. */
    method ClearGeneration(run: string)
      modifies db`candidates
      ensures db.candidates == Remaining(old(db.State()), run)
    {
      var prior := set id | id in db.candidates && db.candidates[id].run == run;
      assert prior == CandidatesOf(db.State(), run);
      var cited := (exists e :: e in db.evidence && e.candidate in prior)
                   || (exists k :: k in db.decisions && k.candidate in prior);
      if !cited {
        db.candidates := db.candidates - prior;
      }
    }

    method WriteAll(run: string, batch: Batch) returns (ghost stored: seq<Candidate>)
      modifies db`candidates
      ensures Renamed(batch, run, stored) && db.candidates == WithAll(old(db.candidates), stored)
      ensures forall k :: 0 <= k < |stored| ==> stored[k].id !in old(db.candidates)
      ensures forall k, m :: 0 <= k < m < |stored| ==> stored[k].id != stored[m].id
    {
      ghost var remaining := db.candidates;
      stored := [];
      var i := 0;
      while i < |batch.candidates|
        invariant i <= |batch.candidates| && |stored| == i
        invariant db.candidates == WithAll(remaining, stored)
        invariant forall k :: 0 <= k < i ==> SaysSame(batch.candidates[k], run, batch, stored[k])
        invariant forall k :: 0 <= k < i ==> stored[k].id !in remaining
        invariant forall k, m :: 0 <= k < m < i ==> stored[k].id != stored[m].id
      {
        var c := batch.candidates[i];
        var id := AvailableId(db.candidates.Keys, c.id, run);
        NotYetStored(remaining, stored, id);
        var row := Stored(c, id, run, batch);
        db.candidates := db.candidates[id := row];
        assert (stored + [row])[..i] == stored;
        stored := stored + [row];
        i := i + 1;
      }
    }

    static lemma StoredLegal(s: Store, batch: Batch, run: string, provider: string, cx: Context, stored: seq<Candidate>)
      requires WellFormed(batch, run, provider, cx) && Renamed(batch, run, stored)
      requires forall c :: c in batch.candidates ==> c.Typed()
      requires forall e :: e in cx.events ==> e in s.events && s.events[e] == Owner(cx.project, cx.task)
      requires forall k :: 0 <= k < |stored| ==> stored[k].id !in Remaining(s, run)
      requires forall k, m :: 0 <= k < m < |stored| ==> stored[k].id != stored[m].id
      ensures Legal(s, Op.RecordSuccess(run, stored))
    {
      hide WellFormed, Grounded, Remaining;
      forall k | 0 <= k < |stored|
        ensures stored[k].run == run && Grounded(s.events, stored[k]) && 0.0 <= stored[k].confidence <= 1.0
      {
        GroundedWhenStored(batch, run, provider, cx, s.events, batch.candidates[k], stored[k]);
      }
    }

    /** One extraction of one task input. */
    method ExtractTask(key: RunKey, newId: string, force: bool, provider: string, answer: Provider, cx: Context)
      returns (r: Result, ghost end: Ending)
      requires db.Valid()
      requires answer.Answers? ==> forall c :: c in answer.batch.candidates ==> c.Typed()
      requires forall e :: e in cx.events ==> e in db.events && db.events[e] == Owner(cx.project, cx.task)
      modifies this`runs, db`candidates
      ensures db.Valid() && runs == old(runs)[key := Attempt(old(Known(key)), newId, force, end)]
      ensures r.DuplicateRun? || r.InProgress? || r.DeadLettered? <==> Blocked(old(Known(key)), force)
      ensures Blocked(old(Known(key)), force) ==>
                runs == old(runs) && db.State() == old(db.State())
                && (r.DuplicateRun? <==> old(Known(key)).value.status.Succeeded?)
                && (r.DeadLettered? <==> old(Known(key)).value.status.RunDead?)
      ensures r.Failed? ==> end.Failure? && db.State() == old(db.State())
      ensures r.Extracted? <==> !Blocked(old(Known(key)), force) && answer.Answers?
                                && WellFormed(answer.batch, runs[key].id, provider, cx)
      ensures r.Extracted? ==> end.Success? && r.count == |answer.batch.candidates|
      ensures r.Extracted? ==> forall i :: 0 <= i < |answer.batch.candidates| ==>
                HasRow(db.candidates, answer.batch.candidates[i], runs[key].id, answer.batch)
      ensures r.Extracted? ==>
                exists stored :: Renamed(answer.batch, runs[key].id, stored)
                     && Legal(old(db.State()), Op.RecordSuccess(runs[key].id, stored))
                     && db.State() == Apply(old(db.State()), Op.RecordSuccess(runs[key].id, stored))
    {
      hide Inv, WellFormed, Apply, Legal;
      var known := Known(key);
      if Blocked(known, force) {
        end := Crash;
        r := if known.value.status.RunDead? then DeadLettered
             else if known.value.status.Succeeded? then DuplicateRun
             else InProgress;
        return;
      }
      var attempts := if known.Some? then known.value.attempts + 1 else 1;
      var id := if known.Some? then known.value.id else newId;
      runs := runs[key := Run(id, Running, attempts)];
      var ok := false;
      if answer.Answers? {
        ok := ValidateBatch(answer.batch, id, provider, cx);
      }
      if ok {
        ghost var stored := RecordSuccess(id, provider, answer.batch, cx);
        runs := runs[key := Run(id, Succeeded, attempts)];
        end := Success;
        return Extracted(|answer.batch.candidates|), end;
      }
      runs := runs[key := Run(id, if attempts >= 3 then RunDead else RunRetry, attempts)];
      end := Ending.Failure;
      return Result.Failed, end;
    }
  }

  lemma ApplyRecord(s: Store, run: string, batch: seq<Candidate>)
    requires Legal(s, Op.RecordSuccess(run, batch))
    ensures Apply(s, Op.RecordSuccess(run, batch)) == s.(candidates := WithAll(Remaining(s, run), batch))
  {
  }

  lemma NotYetStored(m: map<string, Candidate>, batch: seq<Candidate>, id: string)
    requires id !in WithAll(m, batch)
    ensures id !in m && forall c :: c in batch ==> c.id != id
  {
    WithAllLookup(m, batch, id);
  }

  lemma GroundedWhenStored(b: Batch, run: string, provider: string, cx: Context, events: map<string, Owner>,
                           c: RawCandidate, row: Candidate)
    requires WellFormed(b, run, provider, cx) && c in b.candidates && c.Typed()
    requires forall e :: e in cx.events ==> e in events && events[e] == Owner(cx.project, cx.task)
    requires ExtractionStore.SaysSame(c, run, b, row)
    ensures row.run == run && Grounded(events, row) && 0.0 <= row.confidence <= 1.0
  {
    assert CandidateGrounded(c, b.sources, cx.events);
    forall e | e in c.evidence ensures e in cx.events {
      assert e in Members(c.evidence);
    }
  }
}
