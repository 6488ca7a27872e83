/** What every reachable store keeps, and why a verdict is permanent. */
module IngestTheorems {
  import opened Base
  import opened Events
  import opened Ingest

  /******* Invariant *******/

  /** The three identities of an event are unique. */
  ghost predicate Identified(events: map<string, Event>) {
    && (forall id :: id in events ==> events[id].id == id)
    && (forall a, b | a in events && b in events && events[a].externalId.Some?
                      && events[a].externalId == events[b].externalId && events[a].agent == events[b].agent
                      && events[a].adapter == events[b].adapter
          :: a == b)
    && (forall a, b | a in events && b in events && events[a].session.Some?
                      && events[a].session == events[b].session && events[a].seqNo == events[b].seqNo
          :: a == b)
  }

  /** Exactly one outbox job, naming the event's own type, project, task and session, and one
      search row per event. */
  ghost predicate Projected(s: Store) {
    && s.jobs.Keys == s.events.Keys
    && (forall id :: id in s.events ==>
          && s.jobs[id].kind == s.events[id].kind && s.jobs[id].project == s.events[id].project
          && s.jobs[id].task == s.events[id].task && s.jobs[id].session == s.events[id].session)
    && (forall id :: s.fts[id] == if id in s.events then 1 else 0)
  }

  /** Every event agrees with the rows that own it. */
  ghost predicate OwnedBy(s: Store, e: Event) {
    && e.project in s.projects
    && e.task in s.tasks && s.tasks[e.task].project == e.project
    && (RepoId(e).Some? ==>
          RepoId(e).value in s.repos && s.repos[RepoId(e).value].project == e.project
          && s.repos[RepoId(e).value].root == RepoRoot(e))
    && (e.session.Some? ==>
          Truthy(e.session) && e.session.value in s.sessions
          && var row := s.sessions[e.session.value];
             row.task == e.task && row.agent == e.agent && row.adapter == e.adapter)
  }

  ghost predicate Owned(s: Store) {
    forall id :: id in s.events ==> OwnedBy(s, s.events[id])
  }

  /** Two repository ids never share a (project, root). */
  ghost predicate ReposUnique(s: Store) {
    forall a, b :: a in s.repos && b in s.repos && SameRepo(s.repos[a], s.repos[b]) ==> a == b
  }

  /** `last_seq` is the maximum over the session's events, and the session is
      ended exactly when one of them is a session_ended event. */
  ghost predicate SessionExact(events: map<string, Event>, id: string, row: Session) {
    && id != ""
    && (forall x :: x in events && events[x].session == Some(id) ==> events[x].seqNo <= row.lastSeq)
    && (exists x :: x in events && events[x].session == Some(id) && events[x].seqNo == row.lastSeq)
    && (row.ended <==> exists x :: x in events && events[x].session == Some(id) && events[x].kind.SessionEnded?)
    && (row.ended <==> row.endedAt.Some?)
  }

  ghost predicate SessionsExact(s: Store) {
    forall id :: id in s.sessions ==> SessionExact(s.events, id, s.sessions[id])
  }

  ghost predicate Inv(s: Store) {
    Identified(s.events) && Projected(s) && Owned(s) && ReposUnique(s) && SessionsExact(s)
  }

  /** `t` keeps every fact that decides a verdict in `s`. */
  ghost predicate Grows(s: Store, t: Store) {
    && s.projects.Keys <= t.projects.Keys
    && (forall id :: id in s.events ==> id in t.events && t.events[id] == s.events[id])
    && (forall k :: k in s.tasks ==> k in t.tasks && t.tasks[k].project == s.tasks[k].project)
    && (forall k :: k in s.repos ==> k in t.repos && SameRepo(t.repos[k], s.repos[k]))
    && (forall k :: k in s.sessions ==> k in t.sessions && SameOwner(t.sessions[k], s.sessions[k]))
  }

  predicate SameRepo(a: Repo, b: Repo) { a.project == b.project && a.root == b.root }

  predicate SameOwner(a: Session, b: Session) {
    a.task == b.task && a.agent == b.agent && a.adapter == b.adapter
  }

  lemma TaskKept(m: map<string, Task>, e: Event)
    requires e.task in m ==> m[e.task].project == e.project
    ensures forall k :: k in m ==> k in TouchTask(m, e) && TouchTask(m, e)[k].project == m[k].project
    ensures e.task in TouchTask(m, e) && TouchTask(m, e)[e.task].project == e.project
  {
  }

  lemma RepoKept(m: map<string, Repo>, e: Event)
    requires RepoId(e).Some? && RepoId(e).value in m ==>
               m[RepoId(e).value].project == e.project && m[RepoId(e).value].root == RepoRoot(e)
    ensures forall k :: k in m ==> k in TouchRepo(m, e) && SameRepo(TouchRepo(m, e)[k], m[k])
    ensures forall k :: k in TouchRepo(m, e) && k !in m ==> Some(k) == RepoId(e)
    ensures RepoId(e).Some? ==>
              RepoId(e).value in TouchRepo(m, e) && TouchRepo(m, e)[RepoId(e).value].project == e.project
              && TouchRepo(m, e)[RepoId(e).value].root == RepoRoot(e)
  {
  }

  function Seat(m: map<string, Session>, e: Event): map<string, Session> {
    CloseSession(TouchSession(m, e), e)
  }

  lemma SessionKept(m: map<string, Session>, e: Event)
    requires Truthy(e.session) && e.session.value in m ==>
               m[e.session.value].task == e.task && m[e.session.value].agent == e.agent
               && m[e.session.value].adapter == e.adapter
    ensures forall k :: k in m ==> k in Seat(m, e) && SameOwner(Seat(m, e)[k], m[k])
    ensures forall k :: k in Seat(m, e) && Some(k) != e.session ==> k in m && Seat(m, e)[k] == m[k]
    ensures Truthy(e.session) ==>
              e.session.value in Seat(m, e)
              && var row := Seat(m, e)[e.session.value];
                 row.task == e.task && row.agent == e.agent && row.adapter == e.adapter
                 && row.lastSeq == (if e.session.value in m then Max(m[e.session.value].lastSeq, e.seqNo) else e.seqNo)
                 && row.ended == (e.kind.SessionEnded? || (e.session.value in m && m[e.session.value].ended))
                 && (row.ended && e.session.value in m
                     && (m[e.session.value].ended <==> m[e.session.value].endedAt.Some?)
                     ==> row.endedAt.Some?)
                 && (row.ended && e.session.value !in m ==> row.endedAt.Some?)
                 && (!row.ended && e.session.value in m ==> row.endedAt == m[e.session.value].endedAt)
                 && (!row.ended && e.session.value !in m ==> row.endedAt == None)
  {
  }

  /** The conditions under which `Step` accepts, on the tables they read. */
  ghost predicate Fits(s: Store, e: Event) {
    && !TaskTaken(s, e) && !RepoTaken(s, e) && !RepoClash(s, e) && !SessionTaken(s, e)
    && e.id !in s.events
    && (e.session.Some? ==> Truthy(e.session))
    && (forall id :: id in s.events ==> !SameExternal(s.events[id], e) && !SameSlot(s.events[id], e))
  }

  lemma AcceptedFits(s: Store, e: Event)
    requires SessionsExact(s) && Step(s, e).verdict.Accepted?
    ensures Fits(s, e) && Step(s, e).store == Insert(s, e)
  {
    forall id | id in s.events ensures !SameExternal(s.events[id], e) && !SameSlot(s.events[id], e) {
      assert id !in ExternalHits(s.events, e);
      assert id !in SlotHits(s.events, e);
    }
    NoBlankSession(s);
  }

  lemma NoBlankSession(s: Store)
    requires SessionsExact(s)
    ensures "" !in s.sessions
  {
    forall id | id in s.sessions ensures id != "" {
      assert SessionExact(s.events, id, s.sessions[id]);
    }
  }

  lemma InsertGrows(s: Store, e: Event)
    requires Fits(s, e)
    ensures Grows(s, Insert(s, e))
  {
    TaskKept(s.tasks, e);
    RepoKept(s.repos, e);
    SessionKept(s.sessions, e);
  }

  lemma InsertIdentified(events: map<string, Event>, e: Event)
    requires Identified(events) && e.id !in events
    requires forall id :: id in events ==> !SameExternal(events[id], e) && !SameSlot(events[id], e)
    ensures Identified(events[e.id := e])
  {
  }

  lemma OwnedKept(s: Store, t: Store, e: Event)
    requires Grows(s, t) && OwnedBy(s, e)
    ensures OwnedBy(t, e)
  {
  }

  lemma InsertOwned(s: Store, e: Event)
    requires Owned(s) && Fits(s, e)
    ensures Owned(Insert(s, e))
  {
    var t := Insert(s, e);
    InsertGrows(s, e);
    TaskKept(s.tasks, e);
    RepoKept(s.repos, e);
    SessionKept(s.sessions, e);
    assert OwnedBy(t, e);
    forall id | id in s.events ensures OwnedBy(t, s.events[id]) {
      assert OwnedBy(s, s.events[id]);
      OwnedKept(s, t, s.events[id]);
    }
  }

  lemma InsertRepos(s: Store, e: Event)
    requires ReposUnique(s) && Fits(s, e)
    ensures ReposUnique(Insert(s, e))
  {
    RepoKept(s.repos, e);
    var t := TouchRepo(s.repos, e);
    forall a, b | a in t && b in t && SameRepo(t[a], t[b]) ensures a == b {
      assert a in s.repos ==> SameRepo(t[a], s.repos[a]);
      assert b in s.repos ==> SameRepo(t[b], s.repos[b]);
    }
  }

  lemma InsertIntoSession(events: map<string, Event>, e: Event, id: string, row: Session, now: Session)
    requires e.session == Some(id) && e.id !in events && SessionExact(events, id, row)
    requires now.lastSeq == Max(row.lastSeq, e.seqNo) && now.ended == (e.kind.SessionEnded? || row.ended)
    requires now.ended <==> now.endedAt.Some?
    ensures SessionExact(events[e.id := e], id, now)
  {
    var more := events[e.id := e];
    assert more[e.id] == e;
    var top :| top in events && events[top].session == Some(id) && events[top].seqNo == row.lastSeq;
    assert more[top] == events[top];
    if row.ended {
      var end :| end in events && events[end].session == Some(id) && events[end].kind.SessionEnded?;
      assert more[end] == events[end];
    }
  }

  lemma InsertBesideSession(events: map<string, Event>, e: Event, id: string, row: Session)
    requires e.session != Some(id) && e.id !in events && SessionExact(events, id, row)
    ensures SessionExact(events[e.id := e], id, row)
  {
    var more := events[e.id := e];
    assert forall x :: x in events ==> more[x] == events[x];
    var top :| top in events && events[top].session == Some(id) && events[top].seqNo == row.lastSeq;
    assert more[top] == events[top];
    if row.ended {
      var end :| end in events && events[end].session == Some(id) && events[end].kind.SessionEnded?;
      assert more[end] == events[end];
    }
  }

  lemma OpensSession(s: Store, e: Event, id: string, row: Session)
    requires Owned(s) && e.session == Some(id) && id != "" && id !in s.sessions && e.id !in s.events
    requires row.lastSeq == e.seqNo && row.ended == e.kind.SessionEnded? && (row.ended <==> row.endedAt.Some?)
    ensures SessionExact(s.events[e.id := e], id, row)
  {
    var more := s.events[e.id := e];
    assert more[e.id] == e;
    forall x | x in s.events ensures s.events[x].session != Some(id) {
      assert OwnedBy(s, s.events[x]);
    }
  }

  lemma InsertSessions(s: Store, e: Event)
    requires Owned(s) && SessionsExact(s) && Fits(s, e)
    ensures SessionsExact(Insert(s, e))
  {
    var t := Insert(s, e);
    SessionKept(s.sessions, e);
    forall id | id in t.sessions ensures SessionExact(t.events, id, t.sessions[id]) {
      if e.session != Some(id) {
        InsertBesideSession(s.events, e, id, s.sessions[id]);
      } else if id in s.sessions {
        assert SessionExact(s.events, id, s.sessions[id]);
        InsertIntoSession(s.events, e, id, s.sessions[id], t.sessions[id]);
      } else {
        OpensSession(s, e, id, t.sessions[id]);
      }
    }
  }

  lemma InsertProjected(s: Store, e: Event)
    requires Projected(s) && e.id !in s.events
    ensures Projected(Insert(s, e))
  {
  }

  lemma StepInv(s: Store, e: Event)
    requires Inv(s)
    ensures Inv(Step(s, e).store)
  {
    if Step(s, e).verdict.Accepted? {
      AcceptedFits(s, e);
      InsertIdentified(s.events, e);
      InsertProjected(s, e);
      InsertOwned(s, e);
      InsertRepos(s, e);
      InsertSessions(s, e);
    }
  }

  /** Every reachable store satisfies the invariant. */
  lemma {:induction false} RunInv(s: Store, es: seq<Event>)
    requires Inv(s)
    ensures Inv(Run(s, es).store)
    decreases |es|
  {
    hide Step;
    if es != [] {
      RunInv(s, es[..|es| - 1]);
      StepInv(Run(s, es[..|es| - 1]).store, es[|es| - 1]);
    }
  }

  lemma ReachableInv(s: Store)
    requires Reachable(s)
    ensures Inv(s)
  {
    hide Inv, Step;
    EmptyInv();
    var es :| s == Run(EMPTY, es).store;
    RunInv(EMPTY, es);
  }

  /** All events of one task belong to one project. */
  lemma TaskHasOneProject(s: Store, a: string, b: string)
    requires Inv(s) && a in s.events && b in s.events && s.events[a].task == s.events[b].task
    ensures s.events[a].project == s.events[b].project
  {
    assert OwnedBy(s, s.events[a]) && OwnedBy(s, s.events[b]);
  }

  /******* The verdict is decided by the store's facts *******/

  ghost predicate Stored(s: Store, e: Event) {
    e.id in s.events && s.events[e.id] == e
  }

  /** `x` holds one of the identities of `e` without being `e`. */
  predicate Collides(x: Event, e: Event) {
    x != e
    && (x.id == e.id
        || (x.externalId.Some? && x.externalId == e.externalId && x.agent == e.agent && x.adapter == e.adapter)
        || (x.session.Some? && x.session == e.session && x.seqNo == e.seqNo))
  }

  /** Some stored fact rules `e` out. None of the disjuncts can ever become false. */
  ghost predicate Barred(s: Store, e: Event) {
    || (exists id :: id in s.events && Collides(s.events[id], e))
    || e.session == Some("")
    || TaskTaken(s, e)
    || RepoTaken(s, e)
    || RepoHeld(s, e)
    || SessionTaken(s, e)
  }

  predicate RepoHeld(s: Store, e: Event) {
    var id := RepoId(e);
    id.Some? && exists r :: r in s.repos && r != id.value
                            && s.repos[r].project == e.project && s.repos[r].root == RepoRoot(e)
  }

  lemma FoundIsStoredOrCollides(s: Store, e: Event, id: string)
    requires Inv(s) && Existing(s.events, e) == Some(id)
    ensures s.events[id] == e <==> Stored(s, e)
    ensures s.events[id] != e ==> Collides(s.events[id], e)
  {
    if e.id !in s.events {
      assert s.events[id].id == id;
      if Truthy(e.externalId) && ExternalHits(s.events, e) != {} {
        assert id in ExternalHits(s.events, e);
      } else {
        assert id in SlotHits(s.events, e);
      }
    }
  }

  lemma StoredNotBarred(s: Store, e: Event)
    requires Inv(s) && Stored(s, e)
    ensures !Barred(s, e)
  {
    hide OwnedBy, Identified, Collides;
    forall id | id in s.events ensures !Collides(s.events[id], e) {
      SameIdentity(s.events, id, e);
    }
    OwnedNotBarred(s, e);
  }

  lemma SameIdentity(events: map<string, Event>, id: string, e: Event)
    requires Identified(events) && id in events && e.id in events && events[e.id] == e
    ensures !Collides(events[id], e)
  {
  }

  lemma OwnedNotBarred(s: Store, e: Event)
    requires ReposUnique(s) && Owned(s) && e.id in s.events && s.events[e.id] == e
    ensures e.session != Some("") && !TaskTaken(s, e) && !RepoTaken(s, e) && !RepoHeld(s, e) && !SessionTaken(s, e)
  {
    assert OwnedBy(s, e);
  }

  lemma CollisionBlocks(s: Store, e: Event, id: string)
    requires id in s.events && s.events[id].id == id && Collides(s.events[id], e)
    ensures InsertBlocked(s.events, TouchSession(s.sessions, e), e)
  {
    if s.events[id].id != e.id {
      assert id in ExternalHits(s.events, e) || id in SlotHits(s.events, e);
    }
  }

  lemma BlockedIsRejected(s: Store, e: Event)
    requires Existing(s.events, e).None?
    requires TaskTaken(s, e) || RepoTaken(s, e) || RepoClash(s, e) || SessionTaken(s, e)
             || InsertBlocked(s.events, TouchSession(s.sessions, e), e)
    ensures Step(s, e).verdict.Rejected()
  {
  }

  lemma BarredIsRejected(s: Store, e: Event)
    requires Inv(s) && Barred(s, e) && Existing(s.events, e).None?
    ensures Step(s, e).verdict.Rejected()
  {
    hide Step, InsertBlocked;
    if id :| id in s.events && Collides(s.events[id], e) {
      assert s.events[id].id == id;
      CollisionBlocks(s, e, id);
    } else if e.session == Some("") {
      NoBlankSession(s);
      assert InsertBlocked(s.events, TouchSession(s.sessions, e), e) by { BlankSessionBlocks(s, e); }
    }
    BlockedIsRejected(s, e);
  }

  lemma BlankSessionBlocks(s: Store, e: Event)
    requires e.session == Some("") && "" !in s.sessions
    ensures InsertBlocked(s.events, TouchSession(s.sessions, e), e)
  {
  }

  /** The verdict theorem: a duplicate is exactly a stored event, a rejection
      exactly a barred one, and everything else is accepted and then stored. */
  lemma VerdictExact(s: Store, e: Event)
    requires Inv(s)
    ensures Step(s, e).verdict.Duplicate? <==> Stored(s, e)
    ensures Step(s, e).verdict.Rejected() <==> Barred(s, e)
    ensures Step(s, e).verdict.Duplicate? ==> Step(s, e).verdict.of == e.id
    ensures !Step(s, e).verdict.Accepted? ==> Step(s, e).store == s
    ensures Step(s, e).verdict.Accepted? ==> Stored(Step(s, e).store, e) && Step(s, e).store != s
  {
    hide Collides, Owned, Projected, SessionsExact, ReposUnique, TouchSession, CloseSession;
    var found := Existing(s.events, e);
    if found.Some? {
      FoundIsStoredOrCollides(s, e, found.value);
      if s.events[found.value] == e {
        assert s.events[found.value].id == found.value;
        StoredNotBarred(s, e);
      }
    } else {
      if Barred(s, e) {
        BarredIsRejected(s, e);
      } else if Step(s, e).verdict.Rejected() {
        NotBarredIsAccepted(s, e);
      }
      if Step(s, e).verdict.Accepted? {
        assert e.id !in s.events && e.id in Step(s, e).store.events;
      }
    }
  }

  lemma NotBarredIsAccepted(s: Store, e: Event)
    requires Inv(s) && !Barred(s, e) && Existing(s.events, e).None?
    ensures Step(s, e).verdict.Accepted?
  {
    forall id | id in s.events ensures !SameExternal(s.events[id], e) && !SameSlot(s.events[id], e) {
      assert s.events[id].id == id;
      assert !Collides(s.events[id], e);
    }
    assert e.id !in s.jobs;
  }

  /******* Permanence *******/

  lemma NotAcceptedUnchanged(s: Store, e: Event)
    ensures !Step(s, e).verdict.Accepted? ==> Step(s, e).store == s
  {
  }

  lemma StepGrows(s: Store, e: Event)
    requires Inv(s)
    ensures Grows(s, Step(s, e).store)
  {
    hide Step, Grows, Insert;
    NotAcceptedUnchanged(s, e);
    GrowsReflexive(s);
    if Step(s, e).verdict.Accepted? {
      AcceptedFits(s, e);
      InsertGrows(s, e);
    }
  }

  lemma GrowsTransitive(s: Store, t: Store, u: Store)
    requires Grows(s, t) && Grows(t, u)
    ensures Grows(s, u)
  {
  }

  lemma GrowsReflexive(s: Store)
    ensures Grows(s, s)
  {
  }

  lemma {:induction false} RunGrows(s: Store, es: seq<Event>)
    requires Inv(s)
    ensures Grows(s, Run(s, es).store)
    decreases |es|
  {
    hide Step, Inv, Grows;
    GrowsReflexive(s);
    if es != [] {
      var t := Run(s, es[..|es| - 1]).store;
      RunGrows(s, es[..|es| - 1]);
      RunInv(s, es[..|es| - 1]);
      StepGrows(t, es[|es| - 1]);
      GrowsTransitive(s, t, Step(t, es[|es| - 1]).store);
    }
  }

  lemma BarredForever(s: Store, t: Store, e: Event)
    requires Grows(s, t)
    ensures Barred(s, e) ==> Barred(t, e)
    ensures Stored(s, e) ==> Stored(t, e)
  {
    if id :| id in s.events && Collides(s.events[id], e) {
      assert t.events[id] == s.events[id];
    } else if RepoHeld(s, e) {
      var r :| r in s.repos && r != RepoId(e).value
               && s.repos[r].project == e.project && s.repos[r].root == RepoRoot(e);
      assert r in t.repos && t.repos[r].project == e.project;
    }
  }

  /** Where the i-th verdict of a run was decided, and what followed. */
  lemma RunAt(s: Store, es: seq<Event>, more: seq<Event>, i: nat)
    requires i < |es|
    ensures Run(s, es).verdicts[i] == Step(Run(s, es[..i]).store, es[i]).verdict
    ensures Run(Run(s, es).store, more).store
         == Run(Step(Run(s, es[..i]).store, es[i]).store, es[i + 1..] + more).store
  {
    hide Step;
    RunSnoc(s, es[..i], es[i]);
    assert es[..i] + [es[i]] == es[..i + 1];
    RunPrefix(s, es, i + 1);
    RunAppend(s, es[..i + 1], es[i + 1..]);
    assert es[..i + 1] + es[i + 1..] == es;
    RunAppend(Run(s, es[..i + 1]).store, es[i + 1..], more);
  }

  /** One event, then any traffic, then the same event again. */
  lemma AgainAfter(s: Store, e: Event, between: seq<Event>)
    requires Inv(s)
    ensures var first := Step(s, e);
            var t := Run(first.store, between).store;
            var again := Step(t, e);
            && again.store == t
            && (!first.verdict.Rejected() <==> again.verdict == Duplicate(e.id))
            && (first.verdict.Rejected() <==> again.verdict.Rejected())
  {
    hide Step;
    var first := Step(s, e);
    var t := Run(first.store, between).store;
    StepInv(s, e);
    RunInv(first.store, between);
    RunGrows(first.store, between);
    VerdictExact(s, e);
    VerdictExact(t, e);
    BarredForever(first.store, t, e);
    if Stored(t, e) {
      StoredNotBarred(t, e);
    }
  }

  /** After any run, the i-th event resubmitted (at once or after any further
      traffic) is a duplicate if it was accepted or a duplicate, is rejected
      again if it was rejected, and in every case leaves the store unchanged. */
  lemma VerdictPermanent(s: Store, es: seq<Event>, more: seq<Event>, i: nat)
    requires Inv(s) && i < |es|
    ensures var t := Run(Run(s, es).store, more).store;
            var first := Run(s, es).verdicts[i];
            var again := Step(t, es[i]);
            && again.store == t
            && (!first.Rejected() <==> again.verdict == Duplicate(es[i].id))
            && (first.Rejected() <==> again.verdict.Rejected())
  {
    hide Step;
    RunInv(s, es[..i]);
    RunAt(s, es, more, i);
    AgainAfter(Run(s, es[..i]).store, es[i], es[i + 1..] + more);
  }

  /** Resubmitting a whole stream changes nothing. */
  lemma {:induction false} ResubmitNoOp(s: Store, es: seq<Event>, k: nat)
    requires Inv(s) && k <= |es|
    ensures Run(Run(s, es).store, es[..k]).store == Run(s, es).store
    decreases k
  {
    hide Step;
    if k > 0 {
      ResubmitNoOp(s, es, k - 1);
      var t := Run(s, es).store;
      assert es[..k] == es[..k - 1] + [es[k - 1]];
      RunSnoc(t, es[..k - 1], es[k - 1]);
      VerdictPermanent(s, es, [], k - 1);
    }
  }

  /** A rejection is always a rejection, but a conflict may turn into a fault:
      it stays a conflict exactly when the repository guard of the insert does
      not fire first. */
  ghost predicate FaultsFirst(s: Store, e: Event) {
    Existing(s.events, e).None? && !TaskTaken(s, e) && RepoClash(s, e)
  }

  lemma ConflictExactly(s: Store, e: Event)
    requires Projected(s) && Step(s, e).verdict.Rejected()
    ensures Step(s, e).verdict.Conflict? <==> !FaultsFirst(s, e)
  {
    if Existing(s.events, e).None? {
      assert e.id !in s.events;
    }
  }

  lemma ConflictStaysExactly(s: Store, es: seq<Event>, more: seq<Event>, i: nat)
    requires Inv(s) && i < |es| && Run(s, es).verdicts[i].Rejected()
    ensures var t := Run(Run(s, es).store, more).store;
            Step(t, es[i]).verdict.Conflict? <==> !FaultsFirst(t, es[i])
  {
    hide Step, FaultsFirst;
    VerdictPermanent(s, es, more, i);
    var t := Run(Run(s, es).store, more).store;
    RunInv(s, es);
    RunInv(Run(s, es).store, more);
    ConflictExactly(t, es[i]);
  }

  lemma EmptyInv()
    ensures Inv(EMPTY)
  {
  }

  /** Three events: `OWNER` opens session "s"; `LATE` claims it for another agent
      under an unregistered repository; `RIVAL` registers that root first. */
  const OWNER := Event("a", None, ToolCall, 0, "one", "hook", "p", "t", Some("s"), 0, None, map[], map[], {}, "")
  const LATE := Event("b", None, ToolCall, 0, "two", "hook", "p", "t", Some("s"), 1, None,
                      map["repo_id" := "r1", "root_path" := "/src"], map[], {}, "")
  const RIVAL := Event("c", None, ToolCall, 0, "one", "hook", "p", "t", None, 0, None,
                       map["repo_id" := "r2", "root_path" := "/src"], map[], {}, "")

  lemma OwnerOpens()
    ensures var s := Step(EMPTY, OWNER);
            s.verdict.Accepted? && s.store.events == map["a" := OWNER] && s.store.tasks == map["t" := Task("p", 0, 0)]
            && s.store.repos == map[] && s.store.jobs.Keys == {"a"}
            && s.store.sessions == map["s" := Session("t", "one", "hook", 0, None, false, 0)]
  {
    assert Existing(EMPTY.events, OWNER).None?;
  }

  lemma RivalRegisters()
    ensures var t := Step(Step(EMPTY, OWNER).store, RIVAL);
            t.verdict.Accepted? && t.store.events == map["a" := OWNER, "c" := RIVAL]
            && t.store.tasks == map["t" := Task("p", 0, 0)]
            && t.store.repos == map["r2" := Repo("p", "/src", "unknown", 0, 0)]
  {
    OwnerOpens();
    var s := Step(EMPTY, OWNER).store;
    assert Existing(s.events, RIVAL).None?;
    assert ExternalHits(s.events, RIVAL) == {} && SlotHits(s.events, RIVAL) == {};
    assert RepoId(RIVAL) == Some("r2") && RepoRoot(RIVAL) == "/src" && RepoVcs(RIVAL) == "unknown";
  }

  /** A session conflict that a later repository registration turns into a fault. */
  lemma ConflictCanBecomeFault()
    ensures var s := Step(EMPTY, OWNER).store;
            Step(s, LATE).verdict == Conflict(Some("s")) && Step(Step(s, RIVAL).store, LATE).verdict == Fault
  {
    OwnerOpens();
    RivalRegisters();
    var s := Step(EMPTY, OWNER).store;
    var t := Step(s, RIVAL).store;
    assert RepoId(LATE) == Some("r1") && RepoRoot(LATE) == "/src";
    assert SlotHits(s.events, LATE) == {} && SlotHits(t.events, LATE) == {};
    assert Existing(s.events, LATE).None? && Existing(t.events, LATE).None?;
    assert "r2" in t.repos;
  }
}
