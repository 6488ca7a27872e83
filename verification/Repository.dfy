/** The repository object: tables updated in place inside transactions that roll
    back whole (src/codememory/storage/repository.py, storage/database.py:71-81). */
module Repository {
  import opened Base
  import opened Events
  import opened Ingest
  import opened IngestTheorems
  import Outbox

  datatype Tables = Tables(
    projects: map<string, Project>, tasks: map<string, Task>, repos: map<string, Repo>,
    sessions: map<string, Session>, events: map<string, Event>, jobs: Outbox.Queue, fts: multiset<string>)

  /** The answer of an atomic batch. */
  datatype Batch = Committed(verdicts: seq<Verdict>) | Aborted(first: Verdict)

  function FirstRejected(verdicts: seq<Verdict>): (r: Option<Verdict>)
    ensures r.None? <==> forall v :: v in verdicts ==> !v.Rejected()
    ensures r.Some? ==> r.value.Rejected()
  {
    if verdicts == [] then None
    else if verdicts[0].Rejected() then Some(verdicts[0])
    else FirstRejected(verdicts[1..])
  }

  lemma {:induction false} FirstRejectedAppend(a: seq<Verdict>, b: seq<Verdict>)
    ensures FirstRejected(a + b) == if FirstRejected(a).Some? then FirstRejected(a) else FirstRejected(b)
  {
    if a == [] {
      assert a + b == b;
    } else {
      assert (a + b)[1..] == a[1..] + b;
      FirstRejectedAppend(a[1..], b);
    }
  }

  lemma InvAfter(s: Store, e: Event, t: Store, v: Verdict)
    requires Inv(s) && Outcome(t, v) == Step(s, e)
    ensures Inv(t)
  {
    hide Step;
    StepInv(s, e);
  }

  lemma BatchStep(s: Store, es: seq<Event>, i: nat)
    requires Inv(s) && i < |es|
    ensures var t := Run(s, es[..i]);
            var next := Step(t.store, es[i]);
            Run(s, es[..i + 1]) == Trace(next.store, t.verdicts + [next.verdict]) && Identified(next.store.events)
  {
    hide Step;
    assert es[..i + 1] == es[..i] + [es[i]];
    RunSnoc(s, es[..i], es[i]);
    RunInv(s, es[..i + 1]);
  }

  lemma NewKey(s: Store, e: Event)
    ensures Step(s, e).verdict.Accepted? ==> e.id !in s.jobs
  {
  }

  lemma RejectedUnchanged(s: Store, e: Event)
    ensures Step(s, e).verdict.Rejected() ==> Step(s, e).store == s
  {
  }

  /** The first event to be rejected decides the batch. */
  lemma RejectedAt(s: Store, es: seq<Event>, i: nat)
    requires i < |es| && FirstRejected(Run(s, es[..i]).verdicts).None?
    requires Step(Run(s, es[..i]).store, es[i]).verdict.Rejected()
    ensures FirstRejected(Run(s, es).verdicts) == Some(Step(Run(s, es[..i]).store, es[i]).verdict)
  {
    hide Step;
    var v := Run(s, es).verdicts;
    RunAt(s, es, [], i);
    RunPrefix(s, es, i);
    assert v == v[..i] + [v[i]] + v[i + 1..];
    FirstRejectedAppend(v[..i] + [v[i]], v[i + 1..]);
    FirstRejectedAppend(v[..i], [v[i]]);
  }

  /** An accepted event enqueues its own job; any other verdict leaves the queue alone. */
  predicate Enqueued(q: Outbox.Queue, r: Outbox.Queue, e: Event, v: Verdict, now: int) {
    r == if v.Accepted? then Outbox.Apply(q, Outbox.Enqueue(now, e.id, PayloadOf(e))) else q
  }

  /** What the selection returns may be leased. */
  lemma SelectedAllowed(q: Outbox.Queue, now: int, until: int, task: Option<string>, jobType: Option<string>,
                        limit: nat, ids: seq<string>)
    requires Outbox.Oldest(Outbox.Expired(q, now), Outbox.Candidates(Outbox.Expired(q, now), now, task, jobType),
                           limit, ids)
    ensures Outbox.Claim(q, now, until, task, jobType, limit, ids)
  {
    hide Outbox.ExpireJob, Outbox.Ready;
    var expired := Outbox.Expired(q, now);
    forall id | id in ids ensures id in q && Outbox.Ready(Outbox.ExpireJob(q[id], now), now) {
      assert id in Outbox.Candidates(expired, now, task, jobType);
      assert expired[id] == Outbox.ExpireJob(q[id], now);
    }
  }

  class MemoryRepository {
    var projects: map<string, Project>
    var tasks: map<string, Task>
    var repos: map<string, Repo>
    var sessions: map<string, Session>
    var events: map<string, Event>
    var jobs: Outbox.Queue
    var fts: multiset<string>

    /** The facts of the store, clock columns of the queue left out. */
    ghost function State(): Store
      reads this
    {
      Store(projects, tasks, repos, sessions, events, Outbox.Payloads(jobs), fts)
    }

    ghost predicate Valid()
      reads this
    {
      Inv(State())
    }

    constructor ()
      ensures Valid() && State() == EMPTY && jobs == map[]
    {
      projects, tasks, repos, sessions, events, jobs, fts := map[], map[], map[], map[], map[], map[], multiset{};
      new;
      EmptyInv();
      assert State() == EMPTY;
    }

    function Snapshot(): Tables
      reads this
    {
      Tables(projects, tasks, repos, sessions, events, jobs, fts)
    }

    method Rollback(saved: Tables)
      modifies this
      ensures Snapshot() == saved
    {
      projects, tasks, repos, sessions := saved.projects, saved.tasks, saved.repos, saved.sessions;
      events, jobs, fts := saved.events, saved.jobs, saved.fts;
    }

    /** The system clock. */
    method IsoNow() returns (now: int) {
      now := *;
    }

    method ExistingByIdentity(e: Event) returns (r: Option<string>)
      requires Identified(events)
      ensures r == Existing(events, e)
    {
      if e.id in events {
        return Some(e.id);
      }
      var external := ExternalHits(events, e);
      if Truthy(e.externalId) && external != {} {
        var id :| id in external;
        assert forall a, b :: a in external && b in external ==> SameExternal(events[a], events[b]);
        assert id == Pick(external);
        return Some(id);
      }
      var slot := SlotHits(events, e);
      if Truthy(e.session) && slot != {} {
        var id :| id in slot;
        assert forall a, b :: a in slot && b in slot ==> SameSlot(events[a], events[b]);
        assert id == Pick(slot);
        return Some(id);
      }
      return None;
    }

    /** The entity rows of one event; `Rejected` leaves the tables half written. */
    method EnsureEntities(e: Event) returns (v: Verdict)
      modifies `projects, `tasks, `repos, `sessions
      ensures v == if TaskTaken(old(State()), e) then Conflict(Some(e.task))
                   else if RepoTaken(old(State()), e) then Conflict(RepoId(e))
                   else if RepoClash(old(State()), e) then Fault
                   else if SessionTaken(old(State()), e) then Conflict(e.session)
                   else Accepted
      ensures v.Accepted? ==>
                projects == TouchProject(old(projects), e) && tasks == TouchTask(old(tasks), e)
                && repos == TouchRepo(old(repos), e) && sessions == TouchSession(old(sessions), e)
    {
      if e.task in tasks && tasks[e.task].project != e.project {
        return Conflict(Some(e.task));
      }
      projects := TouchProject(projects, e);
      tasks := TouchTask(tasks, e);
      var repo := RepoId(e);
      if repo.Some? {
        if repo.value in repos
           && (repos[repo.value].project != e.project || repos[repo.value].root != RepoRoot(e)) {
          return Conflict(repo);
        }
        if repo.value !in repos
           && exists r :: r in repos && repos[r].project == e.project && repos[r].root == RepoRoot(e) {
          return Fault;
        }
        repos := TouchRepo(repos, e);
      }
      if Truthy(e.session) {
        var id := e.session.value;
        if id in sessions
           && (sessions[id].task != e.task || sessions[id].agent != e.agent || sessions[id].adapter != e.adapter) {
          return Conflict(e.session);
        }
        sessions := TouchSession(sessions, e);
      }
      return Accepted;
    }

    /** The event row, its job and its search row. */
    method InsertEvent(e: Event, now: int) returns (v: Verdict)
      modifies `events, `jobs, `fts, `sessions
      ensures v == if InsertBlocked(old(events), old(sessions), e) then Conflict(None)
                   else if e.id in old(jobs) then Fault
                   else Accepted
      ensures v.Accepted? ==>
                events == old(events)[e.id := e] && jobs == old(jobs)[e.id := Outbox.NewJob(PayloadOf(e), now)]
                && fts == old(fts) + multiset{e.id} && sessions == CloseSession(old(sessions), e)
      ensures v.Accepted? ==>
                var p := jobs[e.id].payload;
                p.kind == e.kind && p.project == e.project && p.task == e.task && p.session == e.session
    {
      if InsertBlocked(events, sessions, e) {
        // The identity lookup is repeated here; inside one transaction it finds no row.
        return Conflict(None);
      }
      events := events[e.id := e];
      if e.id in jobs {
        return Fault;
      }
      jobs := jobs[e.id := Outbox.NewJob(PayloadOf(e), now)];
      fts := fts + multiset{e.id};
      if Truthy(e.session) {
        sessions := CloseSession(sessions, e);
      }
      return Accepted;
    }

    /** One event inside the caller's transaction. */
    method IngestWithConnection(e: Event, now: int) returns (v: Verdict)
      requires Identified(events)
      modifies this
      ensures v == Step(old(State()), e).verdict
      ensures !v.Rejected() ==> State() == Step(old(State()), e).store
      ensures v.Accepted? ==> jobs == old(jobs)[e.id := Outbox.NewJob(PayloadOf(e), now)]
      ensures v.Duplicate? ==> jobs == old(jobs)
    {
      var existing := ExistingByIdentity(e);
      if existing.Some? {
        return if events[existing.value] == e then Duplicate(existing.value) else Conflict(existing);
      }
      v := EnsureEntities(e);
      if v.Rejected() {
        return;
      }
      v := InsertEvent(e, now);
      if v.Accepted? {
        assert Outbox.Payloads(jobs) == Outbox.Payloads(old(jobs))[e.id := PayloadOf(e)];
        assert State() == Insert(old(State()), e);
      }
    }

    /** One event in its own transaction. */
    method IngestOne(e: Event) returns (v: Verdict)
      requires Valid()
      modifies this
      ensures Valid()
      ensures Outcome(State(), v) == Step(old(State()), e)
      ensures v.Rejected() ==> Snapshot() == old(Snapshot())
      ensures exists now :: Enqueued(old(jobs), jobs, e, v, now)
    {
      hide Step, PayloadOf;
      ghost var s := State();
      ghost var now;
      v, now := Transact(e);
      InvAfter(s, e, State(), v);
      NewKey(s, e);
      if v.Accepted? {
        Outbox.EnqueueNew(old(jobs), e.id, PayloadOf(e), now);
      }
      assert Enqueued(old(jobs), jobs, e, v, now);
    }

    method Transact(e: Event) returns (v: Verdict, ghost at: int)
      requires Identified(events)
      modifies this
      ensures Outcome(State(), v) == Step(old(State()), e)
      ensures v.Rejected() ==> Snapshot() == old(Snapshot())
      ensures jobs == if v.Accepted? then old(jobs)[e.id := Outbox.NewJob(PayloadOf(e), at)] else old(jobs)
    {
      hide Step;
      var saved := Snapshot();
      var now := IsoNow();
      at := now;
      v := IngestWithConnection(e, now);
      if v.Rejected() {
        Rollback(saved);
        RejectedUnchanged(old(State()), e);
      }
    }

    /** A batch in one transaction: it commits exactly when no event of it would be
        rejected on its own, and otherwise leaves no trace. */
    method IngestMany(es: seq<Event>) returns (r: Batch)
      requires Valid()
      modifies this
      ensures Valid()
      ensures var t := Run(old(State()), es);
              match FirstRejected(t.verdicts)
              case None => r == Committed(t.verdicts) && State() == t.store
              case Some(v) => r == Aborted(v) && Snapshot() == old(Snapshot())
    {
      hide Step;
      var saved := Snapshot();
      ghost var s := State();
      var results: seq<Verdict> := [];
      var i := 0;
      while i < |es|
        invariant i <= |es| && Inv(s) && Identified(events)
        invariant Trace(State(), results) == Run(s, es[..i])
        invariant FirstRejected(results).None?
      {
        BatchStep(s, es, i);
        var now := IsoNow();
        var v := IngestWithConnection(es[i], now);
        if v.Rejected() {
          RejectedAt(s, es, i);
          Rollback(saved);
          return Aborted(v);
        }
        FirstRejectedAppend(results, [v]);
        results := results + [v];
        i := i + 1;
      }
      assert es[..i] == es;
      RunInv(s, es);
      r := Committed(results);
    }

    /******* Outbox *******/

    method ExpireLeases(now: int)
      modifies `jobs
      ensures jobs == map id | id in old(jobs) :: Outbox.ExpireJob(old(jobs)[id], now)
    {
      jobs := map id | id in jobs :: Outbox.ExpireJob(jobs[id], now);
    }

    /** ORDER BY created_at LIMIT: rows in age order, ties in any order. */
    method SelectOldest(from: set<string>, limit: nat) returns (ids: seq<string>)
      requires from <= jobs.Keys
      ensures Outbox.Oldest(jobs, from, limit, ids)
    {
      ids := [];
      var rest := from;
      while |ids| < limit && rest != {}
        invariant rest <= from && |ids| + |rest| == |from| && |ids| <= limit
        invariant forall id :: id in ids <==> id in from && id !in rest
        invariant forall i, k :: 0 <= i < k < |ids| ==>
                    ids[i] != ids[k] && jobs[ids[i]].createdAt <= jobs[ids[k]].createdAt
        invariant forall id, other :: id in ids && other in rest ==> jobs[id].createdAt <= jobs[other].createdAt
        decreases rest
      {
        var best := OldestOf(rest);
        ids := ids + [best];
        rest := rest - {best};
      }
    }

    method OldestOf(from: set<string>) returns (best: string)
      requires from != {} && from <= jobs.Keys
      ensures best in from && forall id :: id in from ==> jobs[best].createdAt <= jobs[id].createdAt
    {
      best :| best in from;
      var rest := from - {best};
      while rest != {}
        invariant rest <= from && best in from
        invariant forall id :: id in from && id !in rest ==> jobs[best].createdAt <= jobs[id].createdAt
        decreases rest
      {
        var next :| next in rest;
        if jobs[next].createdAt < jobs[best].createdAt {
          best := next;
        }
        rest := rest - {next};
      }
    }

    /** Both claims end here: expire, select, lease. */
    method LeaseSelected(now: int, until: int, task: Option<string>, jobType: Option<string>, limit: nat)
      returns (ids: seq<string>)
      modifies `jobs
      ensures Outbox.Claim(old(jobs), now, until, task, jobType, limit, ids)
      ensures jobs == Outbox.Apply(old(jobs), Outbox.Lease(now, until, ids)) && State() == old(State())
    {
      hide Outbox.Apply, Outbox.ExpireJob, Outbox.LeaseJob, Outbox.Payloads, Outbox.Oldest, Outbox.Ready;
      ExpireLeases(now);
      var expired := jobs;
      assert expired == Outbox.Expired(old(jobs), now);
      ids := SelectOldest(Outbox.Candidates(jobs, now, task, jobType), limit);
      SelectedAllowed(old(jobs), now, until, task, jobType, limit, ids);
      jobs := map id | id in jobs :: if id in ids then Outbox.LeaseJob(jobs[id], now, until) else jobs[id];
      Outbox.ExpireThenLease(old(jobs), expired, jobs, Outbox.Lease(now, until, ids));
    }

    /** Leases exactly the oldest min(limit, eligible) jobs, each once. */
    method ClaimOutbox(limit: int, leaseSeconds: int, jobType: Option<string>, now: int) returns (ids: seq<string>)
      modifies `jobs
      ensures var until := now + Max(1, leaseSeconds);
              Outbox.Claim(old(jobs), now, until, None, jobType, Max(1, Min(limit, 100)), ids)
              && jobs == Outbox.Apply(old(jobs), Outbox.Lease(now, until, ids))
      ensures State() == old(State())
    {
      hide Outbox.Apply, Outbox.Claim;
      ids := LeaseSelected(now, now + Max(1, leaseSeconds), None, jobType, Max(1, Min(limit, 100)));
    }

    /** Leases the task's oldest available job, if it has one. */
    method ClaimOutboxForTask(task: string, now: int) returns (lease: Option<string>)
      modifies `jobs
      ensures var ids := if lease.Some? then [lease.value] else [];
              Outbox.Claim(old(jobs), now, now + 120, Some(task), Some(Outbox.EVENT_INGESTED), 1, ids)
              && jobs == Outbox.Apply(old(jobs), Outbox.Lease(now, now + 120, ids))
      ensures State() == old(State())
    {
      hide Outbox.Apply, Outbox.Candidates, Outbox.Allowed, Outbox.Expired;
      var ids := LeaseSelected(now, now + 120, Some(task), Some(Outbox.EVENT_INGESTED), 1);
      if ids == [] {
        return None;
      }
      assert ids == [ids[0]];
      return Some(ids[0]);
    }

    /** The single-statement updates: complete, release, fail and their task forms. */
    method Update(op: Outbox.Op) returns (count: nat)
      requires !op.Enqueue? && !op.Lease?
      modifies `jobs
      ensures jobs == Outbox.Apply(old(jobs), op)
      ensures count == |Outbox.Touched(old(jobs), op)|
      ensures State() == old(State())
    {
      count := |Outbox.Touched(jobs, op)|;
      jobs := map id | id in jobs :: Outbox.After(id, jobs[id], op);
      Outbox.ApplyPayloads(old(jobs), op);
    }
  }
}
