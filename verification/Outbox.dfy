/** The durable job queue as a value: every operation acts on each row by the
    function `After` (src/codememory/storage/repository.py:983-1286). */
module Outbox {
  import opened Base
  import opened Ingest

  datatype Status = Pending | Processing | Retry | Completed | Dead

  datatype Job = Job(jobType: string, payload: Payload, status: Status, attempts: nat, maxAttempts: nat,
                     availableAt: int, lease: Option<int>, error: Option<string>, createdAt: int, updatedAt: int)

  type Queue = map<string, Job>

  const EVENT_INGESTED := "event.ingested"

  /** `Lease` is the write of both claim operations, `until` its lease expiry and
      `ids` the rows its SELECT returned. */
  datatype Op =
    | Enqueue(now: int, id: string, payload: Payload)
    | Lease(now: int, until: int, ids: seq<string>)
    | Complete(now: int, id: string)
    | Release(now: int, id: string)
    | Fail(now: int, id: string, backoff: Backoff, dead: bool, error: string)
    | CompleteTask(now: int, task: string, jobType: string)
    | FailTask(now: int, task: string, jobType: string, dead: bool, delay: int, error: string)

  datatype Backoff = At(time: int) | Delay(seconds: int) | Exponential

  function NewJob(payload: Payload, now: int): Job {
    Job(EVENT_INGESTED, payload, Pending, 0, 8, now, None, None, now, now)
  }

  function ExpireJob(j: Job, now: int): Job {
    if j.status.Processing? && j.lease.Some? && j.lease.value <= now
    then j.(status := if j.attempts >= j.maxAttempts then Dead else Retry,
            availableAt := now, lease := None, updatedAt := now)
    else j
  }

  predicate Waiting(j: Job) { j.status.Pending? || j.status.Retry? }

  predicate Ready(j: Job, now: int) { Waiting(j) && j.availableAt <= now }

  function LeaseJob(j: Job, now: int, until: int): Job {
    j.(status := Processing, attempts := j.attempts + 1, lease := Some(until), updatedAt := now)
  }

  function Pow2(n: nat): nat { if n == 0 then 1 else 2 * Pow2(n - 1) }

  function RetryTime(j: Job, now: int, backoff: Backoff): int {
    match backoff
    case At(time) => time
    case Delay(seconds) => now + Max(0, seconds)
    case Exponential => now + Min(3600, Pow2(Max(1, Min(j.attempts, 10))))
  }

  predicate OfTask(j: Job, task: string, jobType: string) {
    j.jobType == jobType && j.payload.task == task
  }

  function After(id: string, j: Job, op: Op): Job {
    match op
    case Enqueue(_, _, _) => j
    case Lease(now, until, ids) =>
      var k := ExpireJob(j, now);
      if id in ids then LeaseJob(k, now, until) else k
    case Complete(now, x) =>
      if id == x && j.status.Processing? then j.(status := Completed, lease := None, updatedAt := now) else j
    case Release(now, x) =>
      if id == x && j.status.Processing? then j.(status := Pending, lease := None, updatedAt := now) else j
    case Fail(now, x, backoff, dead, error) =>
      if id == x && j.status.Processing?
      then j.(status := if dead || j.attempts >= j.maxAttempts then Dead else Retry,
              availableAt := RetryTime(j, now, backoff), lease := None, error := Some(error), updatedAt := now)
      else j
    case CompleteTask(now, task, jobType) =>
      if OfTask(j, task, jobType) && Waiting(j)
      then j.(status := Completed, lease := None, updatedAt := now) else j
    case FailTask(now, task, jobType, dead, delay, error) =>
      if OfTask(j, task, jobType) && Waiting(j)
      then j.(status := if dead then Dead else Retry, availableAt := now + Max(0, delay), lease := None,
              error := Some(error), updatedAt := now)
      else j
  }

  /** The WHERE clause of an update: the rows it counts as changed. */
  predicate Touches(j: Job, id: string, op: Op)
    requires !op.Enqueue? && !op.Lease?
  {
    match op
    case CompleteTask(_, task, jobType) => OfTask(j, task, jobType) && Waiting(j)
    case FailTask(_, task, jobType, _, _, _) => OfTask(j, task, jobType) && Waiting(j)
    case Complete(_, x) => id == x && j.status.Processing?
    case Release(_, x) => id == x && j.status.Processing?
    case Fail(_, x, _, _, _) => id == x && j.status.Processing?
  }

  function Touched(q: Queue, op: Op): set<string>
    requires !op.Enqueue? && !op.Lease?
  {
    set id | id in q && Touches(q[id], id, op)
  }

  /** One operation on the whole table. */
  function Apply(q: Queue, op: Op): Queue {
    var rest := map id | id in q :: After(id, q[id], op);
    if op.Enqueue? && op.id !in q then rest[op.id := NewJob(op.payload, op.now)] else rest
  }

  /** What the SELECT of a claim guarantees about the rows it leases. */
  predicate Allowed(q: Queue, op: Op) {
    op.Lease? ==>
      && (forall i, k :: 0 <= i < k < |op.ids| ==> op.ids[i] != op.ids[k])
      && (forall id :: id in op.ids ==> id in q && Ready(ExpireJob(q[id], op.now), op.now))
  }

  function Exec(q: Queue, ops: seq<Op>): Queue
    decreases |ops|
  {
    if ops == [] then q else Apply(Exec(q, ops[..|ops| - 1]), ops[|ops| - 1])
  }

  predicate Legal(q: Queue, ops: seq<Op>)
    decreases |ops|
  {
    ops != [] ==>
      Legal(q, ops[..|ops| - 1]) && Allowed(Exec(q, ops[..|ops| - 1]), ops[|ops| - 1])
  }

  /******* History of one job *******/

  function Claims(q: Queue, ops: seq<Op>, id: string): nat
    decreases |ops|
  {
    if ops == [] then 0
    else
      var last := ops[|ops| - 1];
      Claims(q, ops[..|ops| - 1], id) + if last.Lease? && id in last.ids then 1 else 0
  }

  predicate Releases(q: Queue, op: Op, id: string) {
    op.Release? && op.id == id && id in q && q[id].status.Processing?
  }

  function ReleaseCount(q: Queue, ops: seq<Op>, id: string): nat
    decreases |ops|
  {
    if ops == [] then 0
    else
      var before := ops[..|ops| - 1];
      ReleaseCount(q, before, id) + if Releases(Exec(q, before), ops[|ops| - 1], id) then 1 else 0
  }

  predicate Sound(j: Job, claims: nat, releases: nat) {
    && (j.status.Processing? <==> j.lease.Some?)
    && j.attempts == claims
    && 0 < j.maxAttempts
    && j.attempts <= j.maxAttempts + releases
    && (Waiting(j) ==> j.attempts < j.maxAttempts + releases)
  }

  lemma AfterSound(q: Queue, op: Op, id: string, claims: nat, releases: nat)
    requires id in q && Allowed(q, op) && Sound(q[id], claims, releases)
    ensures Sound(After(id, q[id], op),
                  claims + (if op.Lease? && id in op.ids then 1 else 0),
                  releases + (if Releases(q, op, id) then 1 else 0))
  {
    if op.Lease? && id in op.ids {
      assert Ready(ExpireJob(q[id], op.now), op.now);
    }
  }

  /** Over every run from an empty queue: a job is processing exactly when it is
      leased, its attempts are its claims, and they never exceed `max_attempts`
      plus its releases; while it waits one more attempt is still allowed. */
  lemma {:induction false} RunSound(ops: seq<Op>, id: string)
    requires Legal(map[], ops)
    ensures id in Exec(map[], ops) ==>
              Sound(Exec(map[], ops)[id], Claims(map[], ops, id), ReleaseCount(map[], ops, id))
    ensures id !in Exec(map[], ops) ==> Claims(map[], ops, id) == 0 && ReleaseCount(map[], ops, id) == 0
    decreases |ops|
  {
    if ops != [] {
      var before := ops[..|ops| - 1];
      var q := Exec(map[], before);
      RunSound(before, id);
      if id in q {
        AfterSound(q, ops[|ops| - 1], id, Claims(map[], before, id), ReleaseCount(map[], before, id));
      }
    }
  }

  /** Without releases a job is claimed at most `max_attempts` times, and once it
      has been, it is only ever processing, completed or dead. */
  lemma ClaimsBounded(ops: seq<Op>, id: string)
    requires Legal(map[], ops) && id in Exec(map[], ops) && ReleaseCount(map[], ops, id) == 0
    ensures var j := Exec(map[], ops)[id];
            Claims(map[], ops, id) <= j.maxAttempts && (Claims(map[], ops, id) == j.maxAttempts ==> !Waiting(j))
  {
    RunSound(ops, id);
  }

  /** `completed` and `dead` are never left, and no row ever disappears or
      changes its payload. */
  lemma {:induction false} TerminalForever(q: Queue, ops: seq<Op>, id: string)
    requires Legal(q, ops) && id in q
    ensures var r := Exec(q, ops);
            id in r && r[id].payload == q[id].payload && r[id].jobType == q[id].jobType
            && (q[id].status.Completed? || q[id].status.Dead? ==> r[id].status == q[id].status)
    decreases |ops|
  {
    if ops != [] {
      TerminalForever(q, ops[..|ops| - 1], id);
      var r := Exec(q, ops[..|ops| - 1]);
      var op := ops[|ops| - 1];
      if op.Lease? && id in op.ids {
        assert Ready(ExpireJob(r[id], op.now), op.now);
      }
    }
  }

  /** The end of a job's last attempt, over every run without releases: a failure
      makes it dead exactly when told to or when the job has been claimed its full
      number of times, an expiry exactly in the second case; after that nothing
      brings it back. */
  lemma FailureIsFinalExactly(ops: seq<Op>, op: Op, more: seq<Op>, id: string)
    requires Legal(map[], ops + [op] + more) && ReleaseCount(map[], ops, id) == 0
    requires id in Exec(map[], ops) && Exec(map[], ops)[id].status.Processing?
    ensures var j := Exec(map[], ops)[id];
            var k := Exec(map[], ops + [op])[id];
            && (op.Fail? && op.id == id ==> (k.status.Dead? <==> op.dead || Claims(map[], ops, id) == j.maxAttempts))
            && (op.Lease? && j.lease.Some? && j.lease.value <= op.now ==>
                  (k.status.Dead? <==> Claims(map[], ops, id) == j.maxAttempts))
            && id in Exec(map[], ops + [op] + more)
            && (k.status.Dead? ==> Exec(map[], ops + [op] + more)[id].status.Dead?)
  {
    hide RetryTime, Allowed, Ready;
    var r := Exec(map[], ops);
    LegalAppend(map[], ops + [op], more);
    LegalAppend(map[], ops, [op]);
    ExecAppend(map[], ops, [op]);
    ExecAppend(map[], ops + [op], more);
    RunSound(ops, id);
    ExecOne(r, op);
    TerminalForever(r, [op], id);
    TerminalForever(Exec(r, [op]), more, id);
    if op.Lease? && r[id].lease.value <= op.now && r[id].attempts >= r[id].maxAttempts {
      DeadNotReady(r, op, id);
    }
    if op.Lease? && r[id].lease.value <= op.now {
      NotDeadByLease(id, r[id], op);
    }
  }

  lemma DeadNotReady(q: Queue, op: Op, id: string)
    requires op.Lease? && Allowed(q, op) && id in q && ExpireJob(q[id], op.now).status.Dead?
    ensures id !in op.ids
  {
  }

  lemma NotDeadByLease(id: string, j: Job, op: Op)
    requires op.Lease? && j.status.Processing? && j.lease.Some? && j.lease.value <= op.now
    ensures After(id, j, op).status.Dead? <==> j.attempts >= j.maxAttempts && id !in op.ids
  {
  }

  /******* Runs in sequence *******/

  lemma {:induction false} ExecAppend(q: Queue, a: seq<Op>, b: seq<Op>)
    ensures Exec(q, a + b) == Exec(Exec(q, a), b)
    decreases |b|
  {
    hide Apply;
    if b == [] {
      assert a + b == a;
    } else {
      assert (a + b)[..|a + b| - 1] == a + b[..|b| - 1];
      ExecAppend(q, a, b[..|b| - 1]);
    }
  }

  lemma {:induction false} LegalAppend(q: Queue, a: seq<Op>, b: seq<Op>)
    ensures Legal(q, a + b) <==> Legal(q, a) && Legal(Exec(q, a), b)
    decreases |b|
  {
    hide Apply, Allowed;
    if b == [] {
      assert a + b == a;
    } else {
      assert (a + b)[..|a + b| - 1] == a + b[..|b| - 1];
      LegalAppend(q, a, b[..|b| - 1]);
      ExecAppend(q, a, b[..|b| - 1]);
    }
  }

  lemma ExecOne(q: Queue, op: Op)
    ensures Exec(q, [op]) == Apply(q, op) && (Legal(q, [op]) <==> Allowed(q, op))
  {
    hide Apply, Allowed;
    assert [op][..0] == [];
  }

  /** A job becomes processing only by a claim. */
  lemma {:induction false} OnlyClaimsLease(q: Queue, ops: seq<Op>, id: string)
    requires Legal(q, ops) && id in Exec(q, ops) && Exec(q, ops)[id].status.Processing?
    requires id in q ==> !q[id].status.Processing?
    ensures exists k :: 0 <= k < |ops| && ops[k].Lease? && id in ops[k].ids
    decreases |ops|
  {
    hide RetryTime;
    if ops != [] {
      var last := |ops| - 1;
      var r := Exec(q, ops[..last]);
      if id in r && r[id].status.Processing? {
        OnlyClaimsLease(q, ops[..last], id);
        var k :| 0 <= k < last && ops[..last][k].Lease? && id in ops[..last][k].ids;
        assert ops[k].Lease? && id in ops[k].ids;
      } else {
        assert ops[last].Lease? && id in ops[last].ids;
      }
    }
  }

  /******* Lease exclusion *******/

  predicate Frees(op: Op, id: string) {
    (op.Complete? || op.Release? || op.Fail?) && op.id == id
  }

  predicate Monotone(ops: seq<Op>) {
    forall i, k :: 0 <= i <= k < |ops| ==> ops[i].now <= ops[k].now
  }

  lemma ExecSnoc(q: Queue, ops: seq<Op>, k: nat)
    requires k < |ops|
    ensures Exec(q, ops[..k + 1]) == Apply(Exec(q, ops[..k]), ops[k])
    ensures Legal(q, ops[..k + 1]) ==> Legal(q, ops[..k]) && Allowed(Exec(q, ops[..k]), ops[k])
  {
    assert ops[..k + 1][..k] == ops[..k];
  }

  lemma {:induction false} LegalPrefix(q: Queue, ops: seq<Op>, k: nat)
    requires Legal(q, ops) && k <= |ops|
    ensures Legal(q, ops[..k])
    decreases |ops| - k
  {
    if k == |ops| {
      assert ops[..k] == ops;
    } else {
      LegalPrefix(q, ops, k + 1);
      ExecSnoc(q, ops, k);
    }
  }

  lemma AfterHeld(id: string, j: Job, op: Op, until: int)
    requires j.status.Processing? && j.lease == Some(until)
    requires !Frees(op, id) && !(op.Lease? && id in op.ids)
    ensures var k := After(id, j, op);
            (k.status.Processing? && k.lease == Some(until)) || until <= op.now
  {
  }

  /** Between a lease and the next one, the row is untouched or the lease ran out. */
  lemma {:induction false} HeldOrExpired(q: Queue, ops: seq<Op>, i: nat, k: nat, id: string)
    requires i < k <= |ops| && Legal(q, ops) && Monotone(ops)
    requires ops[i].Lease? && id in ops[i].ids
    requires forall m :: i < m < k ==> !Frees(ops[m], id) && !(ops[m].Lease? && id in ops[m].ids)
    ensures var r := Exec(q, ops[..k]);
            id in r
            && ((r[id].status.Processing? && r[id].lease == Some(ops[i].until))
                || ops[i].until <= ops[k - 1].now)
    decreases k
  {
    hide After, Exec, Legal, ExpireJob;
    LegalPrefix(q, ops, k);
    ExecSnoc(q, ops, k - 1);
    var r := Exec(q, ops[..k - 1]);
    if k == i + 1 {
      LeasedNow(id, r, ops[i]);
    } else {
      HeldOrExpired(q, ops, i, k - 1, id);
      assert ops[k - 2].now <= ops[k - 1].now;
      if r[id].status.Processing? && r[id].lease == Some(ops[i].until) {
        AfterHeld(id, r[id], ops[k - 1], ops[i].until);
      }
    }
  }

  lemma LeasedNow(id: string, q: Queue, op: Op)
    requires op.Lease? && id in op.ids && Allowed(q, op)
    ensures id in q && After(id, q[id], op).status.Processing? && After(id, q[id], op).lease == Some(op.until)
  {
  }

  /** Two successive claims of one job, by either claim operation, with no
      complete, fail or release between them, are separated by the expiry. */
  lemma LeaseExclusion(q: Queue, ops: seq<Op>, i: nat, k: nat, id: string)
    requires i < k < |ops| && Legal(q, ops) && Monotone(ops)
    requires ops[i].Lease? && id in ops[i].ids && ops[k].Lease? && id in ops[k].ids
    requires forall m :: i < m < k ==> !Frees(ops[m], id) && !(ops[m].Lease? && id in ops[m].ids)
    ensures ops[i].until <= ops[k].now
  {
    HeldOrExpired(q, ops, i, k, id);
    LegalPrefix(q, ops, k + 1);
    ExecSnoc(q, ops, k);
    assert ops[k - 1].now <= ops[k].now;
    assert Ready(ExpireJob(Exec(q, ops[..k])[id], ops[k].now), ops[k].now);
  }

  /******* No job is lost *******/

  function WithStatus(q: Queue, status: Status): set<string> {
    set id | id in q && q[id].status == status
  }

  function WithStatusIn(q: Queue, statuses: set<Status>): set<string> {
    set id | id in q && q[id].status in statuses
  }

  lemma SplitStatus(q: Queue, statuses: set<Status>, status: Status)
    requires status !in statuses
    ensures |WithStatusIn(q, statuses + {status})| == |WithStatusIn(q, statuses)| + |WithStatus(q, status)|
  {
    assert WithStatusIn(q, statuses + {status}) == WithStatusIn(q, statuses) + WithStatus(q, status);
    assert WithStatusIn(q, statuses) !! WithStatus(q, status);
  }

  /** The five counts of `outbox_count` always add up to the number of rows. */
  lemma CountsSum(q: Queue)
    ensures |WithStatus(q, Pending)| + |WithStatus(q, Processing)| + |WithStatus(q, Retry)|
            + |WithStatus(q, Completed)| + |WithStatus(q, Dead)| == |q|
  {
    SplitStatus(q, {}, Pending);
    SplitStatus(q, {Pending}, Processing);
    SplitStatus(q, {Pending, Processing}, Retry);
    SplitStatus(q, {Pending, Processing, Retry}, Completed);
    SplitStatus(q, {Pending, Processing, Retry, Completed}, Dead);
    assert {} + {Pending} == {Pending};
    assert {Pending} + {Processing} == {Pending, Processing};
    assert {Pending, Processing} + {Retry} == {Pending, Processing, Retry};
    assert {Pending, Processing, Retry} + {Completed} == {Pending, Processing, Retry, Completed};
    var every := {Pending, Processing, Retry, Completed} + {Dead};
    forall id | id in q ensures q[id].status in every {
    }
    assert WithStatusIn(q, every) == q.Keys;
    assert WithStatusIn(q, {}) == {};
  }

  ghost function Payloads(q: Queue): map<string, Payload> {
    map id | id in q :: q[id].payload
  }

  /** Queue traffic never changes the facts the store keeps about its jobs. */
  lemma ApplyPayloads(q: Queue, op: Op)
    requires !op.Enqueue?
    ensures Payloads(Apply(q, op)) == Payloads(q)
  {
  }

  /** Expiring every row and then leasing the selected ones is one `Lease`. */
  lemma ExpireThenLease(q: Queue, expired: Queue, leased: Queue, op: Op)
    requires op.Lease?
    requires expired.Keys == q.Keys && forall id :: id in q ==> expired[id] == ExpireJob(q[id], op.now)
    requires leased.Keys == q.Keys
    requires forall id :: id in q ==>
               leased[id] == if id in op.ids then LeaseJob(expired[id], op.now, op.until) else expired[id]
    ensures leased == Apply(q, op) && Payloads(leased) == Payloads(q)
  {
  }

  /******* The oldest eligible rows *******/

  function Eligible(q: Queue, now: int, jobType: Option<string>): set<string> {
    set id | id in q && Ready(q[id], now) && (Truthy(jobType) ==> q[id].jobType == jobType.value)
  }

  /** `ids` lists, oldest first, min(limit, |from|) rows of `from`, each once, and
      no row left out is older than one taken. */
  predicate Oldest(q: Queue, from: set<string>, limit: nat, ids: seq<string>) {
    && from <= q.Keys
    && (forall id :: id in ids ==> id in from)
    && (forall i, k :: 0 <= i < k < |ids| ==> ids[i] != ids[k] && q[ids[i]].createdAt <= q[ids[k]].createdAt)
    && |ids| == Min(limit, |from|)
    && (forall id, other :: id in ids && other in from && other !in ids ==> q[id].createdAt <= q[other].createdAt)
  }

  function Expired(q: Queue, now: int): Queue {
    map id | id in q :: ExpireJob(q[id], now)
  }

  /** The rows a claim selects from, once the expired leases are cleared. */
  function Candidates(q: Queue, now: int, task: Option<string>, jobType: Option<string>): set<string> {
    set id | id in Eligible(q, now, jobType) && (task.Some? ==> q[id].payload.task == task.value)
  }

  /** What one claim transaction does: expire, select the oldest, lease. */
  predicate Claim(q: Queue, now: int, until: int, task: Option<string>, jobType: Option<string>, limit: nat,
                  ids: seq<string>)
  {
    && Allowed(q, Lease(now, until, ids))
    && Oldest(Expired(q, now), Candidates(Expired(q, now), now, task, jobType), limit, ids)
  }

  lemma EnqueueNew(q: Queue, id: string, payload: Payload, now: int)
    requires id !in q
    ensures var r := q[id := NewJob(payload, now)];
            r == Apply(q, Enqueue(now, id, payload)) && Payloads(r) == Payloads(q)[id := payload]
  {
  }

  /******* What each statement writes *******/

  /** An update acts on the leased job it names, or on the waiting jobs of its task and type, and
      counts exactly those. It never touches what a job is or how often it was tried. */
  lemma UpdatedRow(id: string, j: Job, op: Op)
    requires !op.Enqueue? && !op.Lease?
    ensures var k := After(id, j, op);
            && k.payload == j.payload && k.jobType == j.jobType && k.createdAt == j.createdAt
            && k.attempts == j.attempts && k.maxAttempts == j.maxAttempts
            && (Touches(j, id, op) <==>
                if op.CompleteTask? || op.FailTask?
                then j.payload.task == op.task && j.jobType == op.jobType && (j.status.Pending? || j.status.Retry?)
                else id == op.id && j.status.Processing?)
            && (Touches(j, id, op) ==> k.lease.None? && k.updatedAt == op.now)
            && (!Touches(j, id, op) ==> k == j)
    ensures Touches(j, id, op) ==>
              var k := After(id, j, op);
              && (op.Complete? || op.CompleteTask? ==> k.status.Completed?)
              && (op.Release? ==> k.status.Pending?)
              && (op.Complete? || op.CompleteTask? || op.Release? ==>
                    k.error == j.error && k.availableAt == j.availableAt)
              && (op.Fail? || op.FailTask? ==> k.error == Some(op.error) && (k.status.Dead? || k.status.Retry?))
              && (op.Fail? ==> (k.status.Dead? <==> op.dead || j.attempts >= j.maxAttempts))
              && (op.FailTask? ==> (k.status.Dead? <==> op.dead))
              && (op.FailTask? ==> k.availableAt == op.now + Max(0, op.delay))
  {
    hide RetryTime;
  }

  /** A claim first ends the leases that have run out: out of attempts a job is dead, otherwise
      it is available at once. Then it leases what it selected, one attempt more each. */
  lemma ClaimedRow(id: string, j: Job, op: Op)
    requires op.Lease?
    ensures var k := After(id, j, op);
            && k.payload == j.payload && k.jobType == j.jobType && k.createdAt == j.createdAt && k.error == j.error
            && k.maxAttempts == j.maxAttempts
            && (id in op.ids ==>
                  && k.status.Processing? && k.lease == Some(op.until)
                  && k.attempts == j.attempts + 1 && k.updatedAt == op.now)
            && (id !in op.ids && j.status.Processing? && j.lease.Some? && j.lease.value <= op.now ==>
                  && k.lease.None? && k.attempts == j.attempts && k.updatedAt == op.now
                  && (if j.attempts < j.maxAttempts then k.status.Retry? && Ready(k, op.now) else k.status.Dead?))
            && (id !in op.ids && !(j.status.Processing? && j.lease.Some? && j.lease.value <= op.now) ==> k == j)
  {
  }

  /** A job is offered from its time of availability on, while it is pending or to be retried. */
  lemma OfferedExactly(q: Queue, now: int, task: Option<string>, jobType: Option<string>, id: string)
    ensures id in Candidates(q, now, task, jobType) <==>
            && id in q && (q[id].status.Pending? || q[id].status.Retry?) && q[id].availableAt <= now
            && (jobType.Some? && jobType.value != "" ==> q[id].jobType == jobType.value)
            && (task.Some? ==> q[id].payload.task == task.value)
  {
  }

  /** A failed job that is not dead waits: at least two seconds and at most 1024, twice as long
      with every further attempt; or as long as the caller says. */
  lemma FailedWaits(id: string, j: Job, op: Op)
    requires op.Fail? && op.id == id && j.status.Processing?
    ensures var wait := After(id, j, op).availableAt - op.now;
            match op.backoff
            case At(time) => wait == time - op.now
            case Delay(seconds) => wait == if seconds < 0 then 0 else seconds
            case Exponential =>
              && 2 <= wait <= 1024 && (j.attempts <= 1 ==> wait == 2)
              && (1 <= j.attempts ==>
                    After(id, j.(attempts := j.attempts + 1), op).availableAt - op.now == Min(1024, 2 * wait))
    ensures forall now :: After(id, j, op).status.Retry? ==>
              (Ready(After(id, j, op), now) <==> After(id, j, op).availableAt <= now)
  {
    if op.backoff.Exponential? {
      PowersOfTwo(Max(1, Min(j.attempts, 10)));
    }
  }

  lemma PowersOfTwo(n: nat)
    requires 1 <= n <= 10
    ensures 2 <= Pow2(n) <= 1024 && Pow2(1) == 2 && Pow2(10) == 1024 && (n < 10 ==> Pow2(n + 1) == 2 * Pow2(n) <= 1024)
  {
    assert Pow2(0) == 1 && Pow2(1) == 2 && Pow2(2) == 4 && Pow2(3) == 8 && Pow2(4) == 16 && Pow2(5) == 32;
    assert Pow2(6) == 64 && Pow2(7) == 128 && Pow2(8) == 256 && Pow2(9) == 512 && Pow2(10) == 1024;
  }

  /** Every job of every run was enqueued as an ingest job of eight attempts. */
  predicate Standard(j: Job) { j.jobType == EVENT_INGESTED && j.maxAttempts == 8 }

  lemma {:induction false} AlwaysStandard(ops: seq<Op>)
    ensures forall id :: id in Exec(map[], ops) ==> Standard(Exec(map[], ops)[id])
    decreases |ops|
  {
    if ops != [] {
      AlwaysStandard(ops[..|ops| - 1]);
    }
  }

  /** A new job is offered from the moment it is enqueued and has not been tried. */
  lemma NewJobOffered(q: Queue, now: int, id: string, payload: Payload)
    requires id !in q
    ensures var r := Apply(q, Enqueue(now, id, payload));
            && r.Keys == q.Keys + {id} && (forall o :: o in q ==> r[o] == q[o])
            && r[id].payload == payload && Standard(r[id]) && r[id].attempts == 0 && r[id].status.Pending?
            && r[id].createdAt == now && r[id].error.None?
            && (forall t :: Ready(r[id], t) <==> now <= t)
  {
  }

  /** So without releases no job is ever claimed more than eight times. */
  lemma EightAttempts(ops: seq<Op>, id: string)
    requires Legal(map[], ops) && id in Exec(map[], ops) && ReleaseCount(map[], ops, id) == 0
    ensures Claims(map[], ops, id) <= 8
  {
    ClaimsBounded(ops, id);
    AlwaysStandard(ops);
  }
}
