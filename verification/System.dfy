/** Ingest and queue traffic interleaved in any order. */
module System {
  import opened Base
  import opened Events
  import opened Ingest
  import opened IngestTheorems
  import Outbox

  datatype Action = Deliver(event: Event, now: int) | Work(op: Outbox.Op)

  datatype World = World(store: Store, queue: Outbox.Queue)

  const START := World(EMPTY, map[])

  /** The store and the queue are tables of one database: an accepted event
      inserts its job in the same transaction. */
  ghost function Play(actions: seq<Action>): World
    decreases |actions|
  {
    if actions == [] then START
    else Act(Play(actions[..|actions| - 1]), actions[|actions| - 1])
  }

  ghost function Act(w: World, a: Action): World {
    match a
    case Deliver(e, now) =>
      var o := Step(w.store, e);
      World(o.store, if o.verdict.Accepted? then w.queue[e.id := Outbox.NewJob(PayloadOf(e), now)] else w.queue)
    case Work(op) => if op.Enqueue? then w else World(w.store, Outbox.Apply(w.queue, op))
  }

  /** The queue operations a run performs, its inserts included. */
  ghost function Ops(actions: seq<Action>): seq<Outbox.Op>
    decreases |actions|
  {
    if actions == [] then []
    else
      var before := actions[..|actions| - 1];
      Ops(before) + OpOf(Play(before), actions[|actions| - 1])
  }

  ghost function OpOf(w: World, a: Action): seq<Outbox.Op> {
    match a
    case Deliver(e, now) =>
      if Step(w.store, e).verdict.Accepted? then [Outbox.Enqueue(now, e.id, PayloadOf(e))] else []
    case Work(op) => if op.Enqueue? then [] else [op]
  }

  ghost predicate Consistent(w: World) {
    Inv(w.store) && w.store.jobs == Outbox.Payloads(w.queue)
  }

  lemma ActConsistent(w: World, a: Action)
    requires Consistent(w)
    ensures Consistent(Act(w, a))
    ensures Act(w, a).queue == Outbox.Exec(w.queue, OpOf(w, a))
  {
    hide Inv, Step;
    match a
    case Deliver(e, now) =>
      StepInv(w.store, e);
      DeliverJob(w, e, now);
      assert OpOf(w, a) != [] ==> OpOf(w, a)[..0] == [];
    case Work(op) =>
      if !op.Enqueue? {
        Outbox.ApplyPayloads(w.queue, op);
        assert [op][..0] == [];
      }
  }

  lemma DeliverJob(w: World, e: Event, now: int)
    requires Consistent(w)
    ensures Step(w.store, e).store.jobs == Outbox.Payloads(Act(w, Deliver(e, now)).queue)
    ensures Step(w.store, e).verdict.Accepted? ==>
              Act(w, Deliver(e, now)).queue == Outbox.Apply(w.queue, Outbox.Enqueue(now, e.id, PayloadOf(e)))
  {
    hide Step, Inv, Outbox.NewJob, Outbox.Apply;
    NotAcceptedUnchanged(w.store, e);
    if Step(w.store, e).verdict.Accepted? {
      AcceptedJob(w.store, e);
      Outbox.EnqueueNew(w.queue, e.id, PayloadOf(e), now);
    }
  }

  lemma AcceptedJob(s: Store, e: Event)
    requires Step(s, e).verdict.Accepted?
    ensures e.id !in s.jobs && Step(s, e).store.jobs == s.jobs[e.id := PayloadOf(e)]
  {
  }

  /** Every run keeps the store's invariant, and its queue is the one its own
      operations produce from the empty queue. */
  lemma {:induction false} PlayConsistent(actions: seq<Action>)
    ensures Consistent(Play(actions))
    ensures Play(actions).queue == Outbox.Exec(map[], Ops(actions))
    decreases |actions|
  {
    if actions == [] {
      EmptyInv();
    } else {
      var before := actions[..|actions| - 1];
      PlayConsistent(before);
      ActConsistent(Play(before), actions[|actions| - 1]);
      Outbox.ExecAppend(map[], Ops(before), OpOf(Play(before), actions[|actions| - 1]));
    }
  }

  /** No job is ever lost: after any interleaving the five status counts add up
      to the number of accepted events, and each event has its own job. */
  lemma NoJobLost(actions: seq<Action>)
    ensures var w := Play(actions);
            && w.queue.Keys == w.store.events.Keys
            && |Outbox.WithStatus(w.queue, Outbox.Pending)| + |Outbox.WithStatus(w.queue, Outbox.Processing)|
               + |Outbox.WithStatus(w.queue, Outbox.Retry)| + |Outbox.WithStatus(w.queue, Outbox.Completed)|
               + |Outbox.WithStatus(w.queue, Outbox.Dead)| == |w.store.events|
  {
    var w := Play(actions);
    PlayConsistent(actions);
    Outbox.CountsSum(w.queue);
    assert w.queue.Keys == Outbox.Payloads(w.queue).Keys == w.store.events.Keys;
    assert |w.queue| == |w.queue.Keys| && |w.store.events| == |w.store.events.Keys|;
  }

  lemma StandardJobs(actions: seq<Action>)
    ensures forall id :: id in Play(actions).queue ==> Outbox.Standard(Play(actions).queue[id])
  {
    PlayConsistent(actions);
    Outbox.AlwaysStandard(Ops(actions));
  }

  /** A job of the queue names the task, project, type and session of the stored event with its id. */
  lemma JobOfEvent(actions: seq<Action>, id: string)
    requires id in Play(actions).queue
    ensures var w := Play(actions);
            && id in w.store.events && w.store.events[id].id == id
            && var p, e := w.queue[id].payload, w.store.events[id];
               p.task == e.task && p.project == e.project && p.kind == e.kind && p.session == e.session
  {
    PlayConsistent(actions);
    var w := Play(actions);
    assert w.store.jobs.Keys == w.queue.Keys;
    assert w.store.jobs[id] == w.queue[id].payload;
  }

  /** Over every interleaving: a claim for a task leases a job of a stored event of that task, and
      finds none exactly when no stored event of the task has a job that is available. */
  lemma TaskClaimExactly(actions: seq<Action>, now: int, until: int, task: string, ids: seq<string>)
    requires Outbox.Claim(Play(actions).queue, now, until, Some(task), Some(Outbox.EVENT_INGESTED), 1, ids)
    ensures var w := Play(actions);
            && w.queue.Keys == w.store.events.Keys
            && (forall id :: id in ids ==> id in w.store.events && w.store.events[id].task == task)
            && (ids == [] <==>
                forall id :: id in w.store.events && w.store.events[id].task == task ==>
                  !Outbox.Ready(Outbox.ExpireJob(w.queue[id], now), now))
  {
    hide Play, Outbox.ExpireJob, Outbox.Ready, Outbox.Allowed;
    var w := Play(actions);
    NoJobLost(actions);
    StandardJobs(actions);
    forall id | id in w.queue ensures w.queue[id].payload.task == w.store.events[id].task {
      JobOfEvent(actions, id);
    }
    var expired := Outbox.Expired(w.queue, now);
    forall id | id in w.queue
      ensures expired[id].payload == w.queue[id].payload && expired[id].jobType == w.queue[id].jobType
    {
      Kept(w.queue[id], now);
    }
    var from := Outbox.Candidates(expired, now, Some(task), Some(Outbox.EVENT_INGESTED));
    forall id ensures id in from <==>
                      id in w.store.events && w.store.events[id].task == task && Outbox.Ready(expired[id], now) {
    }
    if ids != [] {
      assert ids[0] in ids;
    } else {
      assert from == {};
    }
  }

  lemma Kept(j: Outbox.Job, now: int)
    ensures Outbox.ExpireJob(j, now).payload == j.payload && Outbox.ExpireJob(j, now).jobType == j.jobType
  {
  }
}
