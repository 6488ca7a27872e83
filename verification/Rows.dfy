/** What the entity rows of the canonical store say of the events behind them
    (src/codememory/storage/repository.py:278-366, 495-511). */
module Rows {
  import opened Base
  import opened Events
  import opened Ingest
  import opened IngestTheorems

  /** The times of the events that `of` selects. */
  ghost function Times(events: map<string, Event>, of: Event -> bool): set<int> {
    set id | id in events && of(events[id]) :: events[id].occurredAt
  }

  /** Created at the time of some event, updated at that of the latest. */
  ghost predicate Dated(created: int, updated: int, times: set<int>) {
    created in times && updated in times && forall t :: t in times ==> t <= updated
  }

  function InProject(p: string): Event -> bool { (e: Event) => e.project == p }

  function InTask(t: string): Event -> bool { (e: Event) => e.task == t }

  function InRepo(k: string): Event -> bool { (e: Event) => RepoId(e) == Some(k) }

  function InSession(k: string): Event -> bool { (e: Event) => e.session == Some(k) }

  function Closing(k: string): Event -> bool { (e: Event) => e.session == Some(k) && e.kind.SessionEnded? }

  ghost predicate ProjectsDated(s: Store) {
    forall p :: p in s.projects ==>
      Dated(s.projects[p].createdAt, s.projects[p].updatedAt, Times(s.events, InProject(p)))
  }

  ghost predicate TasksDated(s: Store) {
    forall t :: t in s.tasks ==> Dated(s.tasks[t].createdAt, s.tasks[t].updatedAt, Times(s.events, InTask(t)))
  }

  ghost predicate VcsOf(events: map<string, Event>, k: string, vcs: string) {
    exists id :: id in events && RepoId(events[id]) == Some(k) && RepoVcs(events[id]) == vcs
  }

  ghost predicate ReposDated(s: Store) {
    forall k :: k in s.repos ==>
      && Dated(s.repos[k].createdAt, s.repos[k].updatedAt, Times(s.events, InRepo(k)))
      && VcsOf(s.events, k, s.repos[k].vcs)
  }

  /** A session starts at the time of one of its events and ends at that of a closing one. */
  ghost predicate SessionsDated(s: Store) {
    forall k :: k in s.sessions ==>
      && s.sessions[k].startedAt in Times(s.events, InSession(k))
      && (s.sessions[k].endedAt.Some? ==> s.sessions[k].endedAt.value in Times(s.events, Closing(k)))
  }

  ghost predicate RowsDated(s: Store) {
    ProjectsDated(s) && TasksDated(s) && ReposDated(s) && SessionsDated(s)
  }

  /** One more event adds its time where it is selected. */
  lemma TimesMore(events: map<string, Event>, e: Event, of: Event -> bool)
    requires e.id !in events
    ensures Times(events[e.id := e], of) == Times(events, of) + if of(e) then {e.occurredAt} else {}
  {
    var more := events[e.id := e];
    assert more[e.id] == e && forall id :: id in events ==> more[id] == events[id];
    forall t ensures t in Times(more, of) <==> t in Times(events, of) + if of(e) then {e.occurredAt} else {} {
      if t in Times(events, of) {
        var id :| id in events && of(events[id]) && events[id].occurredAt == t;
        assert id in more && of(more[id]);
      }
      if of(e) && t == e.occurredAt {
        assert e.id in more && of(more[e.id]);
      }
      if t in Times(more, of) {
        var id :| id in more && of(more[id]) && more[id].occurredAt == t;
        assert id != e.id ==> id in events && of(events[id]);
      }
    }
  }

  lemma DatedMore(created: int, updated: int, times: set<int>, t: int)
    requires Dated(created, updated, times)
    ensures Dated(created, Max(updated, t), times + {t})
  {
  }

  lemma DatedNew(t: int)
    ensures Dated(t, t, {t})
  {
  }

  lemma InsertProjectsDated(s: Store, e: Event)
    requires ProjectsDated(s) && Owned(s) && e.id !in s.events
    ensures ProjectsDated(Insert(s, e))
  {
    hide Times, Dated, OwnedBy, TouchTask, TouchRepo, TouchSession, CloseSession;
    var t := Insert(s, e);
    forall p | p in t.projects
      ensures Dated(t.projects[p].createdAt, t.projects[p].updatedAt, Times(t.events, InProject(p)))
    {
      TimesMore(s.events, e, InProject(p));
      if p in s.projects {
        DatedMore(s.projects[p].createdAt, s.projects[p].updatedAt, Times(s.events, InProject(p)), e.occurredAt);
        assert Times(s.events, InProject(p)) + {} == Times(s.events, InProject(p));
      } else {
        assert Times(s.events, InProject(p)) == {} by { NoneOwned(s, p); }
        DatedNew(e.occurredAt);
        assert {} + {e.occurredAt} == {e.occurredAt};
      }
    }
  }

  lemma NoneOwned(s: Store, p: string)
    requires Owned(s) && p !in s.projects
    ensures Times(s.events, InProject(p)) == {}
  {
    forall id | id in s.events ensures s.events[id].project != p {
      assert OwnedBy(s, s.events[id]);
    }
  }

  lemma InsertTasksDated(s: Store, e: Event)
    requires TasksDated(s) && Owned(s) && e.id !in s.events
    ensures TasksDated(Insert(s, e))
  {
    hide Times, Dated, OwnedBy, TouchProject, TouchRepo, TouchSession, CloseSession;
    var t := Insert(s, e);
    forall k | k in t.tasks ensures Dated(t.tasks[k].createdAt, t.tasks[k].updatedAt, Times(t.events, InTask(k))) {
      TimesMore(s.events, e, InTask(k));
      if k in s.tasks {
        DatedMore(s.tasks[k].createdAt, s.tasks[k].updatedAt, Times(s.events, InTask(k)), e.occurredAt);
        assert Times(s.events, InTask(k)) + {} == Times(s.events, InTask(k));
      } else {
        assert Times(s.events, InTask(k)) == {} by { NoneInTask(s, k); }
        DatedNew(e.occurredAt);
        assert {} + {e.occurredAt} == {e.occurredAt};
      }
    }
  }

  lemma NoneInTask(s: Store, k: string)
    requires Owned(s) && k !in s.tasks
    ensures Times(s.events, InTask(k)) == {}
  {
    forall id | id in s.events ensures s.events[id].task != k {
      assert OwnedBy(s, s.events[id]);
    }
  }

  lemma InsertReposDated(s: Store, e: Event)
    requires ReposDated(s) && Owned(s) && e.id !in s.events
    ensures ReposDated(Insert(s, e))
  {
    hide Times, Dated, OwnedBy, VcsOf, RepoId, RepoVcs, TouchProject, TouchTask, TouchSession, CloseSession;
    var t := Insert(s, e);
    forall k | k in t.repos
      ensures Dated(t.repos[k].createdAt, t.repos[k].updatedAt, Times(t.events, InRepo(k)))
              && VcsOf(t.events, k, t.repos[k].vcs)
    {
      TimesMore(s.events, e, InRepo(k));
      VcsMore(s.events, e, k);
      if k in s.repos {
        DatedMore(s.repos[k].createdAt, s.repos[k].updatedAt, Times(s.events, InRepo(k)), e.occurredAt);
        assert Times(s.events, InRepo(k)) + {} == Times(s.events, InRepo(k));
      } else {
        assert Times(s.events, InRepo(k)) == {} by { NoneInRepo(s, k); }
        DatedNew(e.occurredAt);
        assert {} + {e.occurredAt} == {e.occurredAt};
      }
    }
  }

  lemma VcsMore(events: map<string, Event>, e: Event, k: string)
    requires e.id !in events
    ensures RepoId(e) == Some(k) ==> VcsOf(events[e.id := e], k, RepoVcs(e))
    ensures forall vcs :: VcsOf(events, k, vcs) ==> VcsOf(events[e.id := e], k, vcs)
  {
    var more := events[e.id := e];
    assert e.id in more && more[e.id] == e;
    forall vcs | VcsOf(events, k, vcs) ensures VcsOf(more, k, vcs) {
      var id :| id in events && RepoId(events[id]) == Some(k) && RepoVcs(events[id]) == vcs;
      assert more[id] == events[id];
    }
  }

  lemma NoneInRepo(s: Store, k: string)
    requires Owned(s) && k !in s.repos
    ensures Times(s.events, InRepo(k)) == {}
  {
    forall id | id in s.events ensures RepoId(s.events[id]) != Some(k) {
      assert OwnedBy(s, s.events[id]);
    }
  }

  lemma InsertSessionsDated(s: Store, e: Event)
    requires SessionsDated(s) && e.id !in s.events
    ensures SessionsDated(Insert(s, e))
  {
    hide Times, TouchProject, TouchTask, TouchRepo;
    var t := Insert(s, e);
    forall k | k in t.sessions
      ensures t.sessions[k].startedAt in Times(t.events, InSession(k))
              && (t.sessions[k].endedAt.Some? ==> t.sessions[k].endedAt.value in Times(t.events, Closing(k)))
    {
      TimesMore(s.events, e, InSession(k));
      TimesMore(s.events, e, Closing(k));
    }
  }

  lemma StepDated(s: Store, e: Event)
    requires Inv(s) && RowsDated(s)
    ensures RowsDated(Step(s, e).store)
  {
    hide Step, ProjectsDated, TasksDated, ReposDated, SessionsDated, Identified, Projected, ReposUnique, SessionsExact,
      Owned,
      Insert;
    NotAcceptedUnchanged(s, e);
    if Step(s, e).verdict.Accepted? {
      AcceptedFits(s, e);
      assert e.id !in s.events by { FitsNew(s, e); }
      InsertProjectsDated(s, e);
      InsertTasksDated(s, e);
      InsertReposDated(s, e);
      InsertSessionsDated(s, e);
    }
  }

  lemma FitsNew(s: Store, e: Event)
    requires Fits(s, e)
    ensures e.id !in s.events
  {
  }

  /** In every reachable store: a project, task and repository was created at the time of one of
      its events and updated at that of its latest; a repository has the version control of one
      of its events; a session starts with one of its events and ends with a closing one. */
  lemma {:induction false} ReachableDated(es: seq<Event>)
    ensures RowsDated(Run(EMPTY, es).store)
    decreases |es|
  {
    hide Step, RowsDated, Inv;
    if es == [] {
      NothingDated();
    } else {
      ReachableDated(es[..|es| - 1]);
      EmptyInv();
      IngestTheorems.RunInv(EMPTY, es[..|es| - 1]);
      StepDated(Run(EMPTY, es[..|es| - 1]).store, es[|es| - 1]);
    }
  }

  lemma NothingDated()
    ensures RowsDated(Run(EMPTY, []).store)
  {
  }

  /** What an accepted event does to its own rows; the others stay. */
  lemma AcceptedRows(s: Store, e: Event)
    requires Step(s, e).verdict.Accepted?
    ensures var t := Step(s, e).store;
            && t.projects.Keys == s.projects.Keys + {e.project} && t.tasks.Keys == s.tasks.Keys + {e.task}
            && (forall p :: p in s.projects && p != e.project ==> t.projects[p] == s.projects[p])
            && (forall k :: k in s.tasks && k != e.task ==> t.tasks[k] == s.tasks[k])
            && t.tasks[e.task].project == e.project
            && (RepoId(e).None? ==> t.repos == s.repos)
            && (RepoId(e).Some? ==>
                  && t.repos.Keys == s.repos.Keys + {RepoId(e).value}
                  && t.repos[RepoId(e).value].vcs == RepoVcs(e) && t.repos[RepoId(e).value].project == e.project
                  && t.repos[RepoId(e).value].root == RepoRoot(e)
                  && forall k :: k in s.repos && k != RepoId(e).value ==> t.repos[k] == s.repos[k])
            && (!Truthy(e.session) ==> t.sessions == s.sessions)
            && (Truthy(e.session) ==>
                  && t.sessions.Keys == s.sessions.Keys + {e.session.value}
                  && (forall k :: k in s.sessions && k != e.session.value ==> t.sessions[k] == s.sessions[k]))
    ensures Truthy(e.session) ==>
              var id := e.session.value;
              var row := Step(s, e).store.sessions[id];
              && row.task == e.task && row.agent == e.agent && row.adapter == e.adapter
              && (e.kind.SessionEnded? ==> row.endedAt == Some(e.occurredAt))
              && (!e.kind.SessionEnded? && id in s.sessions ==> row.endedAt == s.sessions[id].endedAt)
              && (id in s.sessions ==> row.startedAt == s.sessions[id].startedAt)
  {
    hide Step, RepoId, RepoRoot, RepoVcs, TouchProject, TouchTask, TouchRepo, TouchSession, CloseSession;
    assert Step(s, e).store == Insert(s, e) by { AcceptedIsInsert(s, e); }
    OwnerRows(s, e);
    RepoRow(s.repos, e);
    SessionRow(s.sessions, e);
  }

  lemma AcceptedIsInsert(s: Store, e: Event)
    requires Step(s, e).verdict.Accepted?
    ensures Step(s, e).store == Insert(s, e)
  {
  }

  lemma OwnerRows(s: Store, e: Event)
    ensures var projects, tasks := TouchProject(s.projects, e), TouchTask(s.tasks, e);
            && projects.Keys == s.projects.Keys + {e.project} && tasks.Keys == s.tasks.Keys + {e.task}
            && (forall p :: p in s.projects && p != e.project ==> projects[p] == s.projects[p])
            && (forall k :: k in s.tasks && k != e.task ==> tasks[k] == s.tasks[k])
            && tasks[e.task].project == e.project
  {
  }

  lemma RepoRow(m: map<string, Repo>, e: Event)
    ensures RepoId(e).None? ==> TouchRepo(m, e) == m
    ensures RepoId(e).Some? ==>
              var k := RepoId(e).value;
              && TouchRepo(m, e).Keys == m.Keys + {k} && TouchRepo(m, e)[k].vcs == RepoVcs(e)
              && TouchRepo(m, e)[k].project == e.project && TouchRepo(m, e)[k].root == RepoRoot(e)
              && forall o :: o in m && o != k ==> TouchRepo(m, e)[o] == m[o]
  {
    hide RepoId, RepoRoot, RepoVcs;
  }

  lemma SessionRow(m: map<string, Session>, e: Event)
    ensures var t := CloseSession(TouchSession(m, e), e);
            && (!Truthy(e.session) ==> t == m)
            && (Truthy(e.session) ==>
                  && t.Keys == m.Keys + {e.session.value}
                  && (forall k :: k in m && k != e.session.value ==> t[k] == m[k]))
    ensures Truthy(e.session) ==>
              var id := e.session.value;
              var row := CloseSession(TouchSession(m, e), e)[id];
              && row.task == e.task && row.agent == e.agent && row.adapter == e.adapter
              && (e.kind.SessionEnded? ==> row.endedAt == Some(e.occurredAt))
              && (!e.kind.SessionEnded? && id in m ==> row.endedAt == m[id].endedAt)
              && (id in m ==> row.startedAt == m[id].startedAt)
  {
  }

  /******* Which repository an event names *******/

  /** A declared repository is taken as it is. Without one, an event names a repository exactly
      when it gives a root, and two such events name the same one exactly when project and root
      agree, unless a project name contains a line break. */
  lemma RepositoryExactly(a: Event, b: Event)
    ensures Truthy(Lookup(a.context, "repo_id")) ==> RepoId(a) == Lookup(a.context, "repo_id")
    ensures !Truthy(Lookup(a.context, "repo_id")) ==> (RepoId(a).Some? <==> Truthy(Lookup(a.context, "root_path")))
    ensures !Truthy(Lookup(a.context, "repo_id")) && !Truthy(Lookup(b.context, "repo_id"))
            && RepoId(a).Some? && RepoId(b).Some? && '\n' !in a.project && '\n' !in b.project ==>
              (RepoId(a) == RepoId(b) <==>
               a.project == b.project && Lookup(a.context, "root_path") == Lookup(b.context, "root_path"))
  {
    if !Truthy(Lookup(a.context, "repo_id")) && !Truthy(Lookup(b.context, "repo_id"))
       && RepoId(a).Some? && RepoId(b).Some? && '\n' !in a.project && '\n' !in b.project && RepoId(a) == RepoId(b) {
      var x, y := Lookup(a.context, "root_path").value, Lookup(b.context, "root_path").value;
      SplitAtBreak(a.project, x, b.project, y);
    }
  }

  lemma SplitAtBreak(p: string, x: string, q: string, y: string)
    requires '\n' !in p && '\n' !in q && "repo-" + p + "\n" + x == "repo-" + q + "\n" + y
    ensures p == q && x == y
  {
    var left, right := "repo-" + p + "\n" + x, "repo-" + q + "\n" + y;
    assert left[5..] == p + ['\n'] + x && right[5..] == q + ['\n'] + y;
    SplitAt(p, x, q, y, '\n');
  }

  /** The root of an event is its own, or else its working directory; it is never blank. */
  lemma RootExactly(e: Event)
    ensures Truthy(Lookup(e.context, "root_path")) ==> Some(RepoRoot(e)) == Lookup(e.context, "root_path")
    ensures !Truthy(Lookup(e.context, "root_path")) && Truthy(Lookup(e.context, "cwd")) ==>
              Some(RepoRoot(e)) == Lookup(e.context, "cwd")
    ensures RepoRoot(e) != "" && (RepoRoot(e) != "unknown" ==>
        exists k :: k in e.context && e.context[k] == RepoRoot(e))
    ensures (RepoVcs(e) == "p4" <==> Truthy(Lookup(e.context, "p4_changelist")))
            && (RepoVcs(e) == "git" <==>
                !Truthy(Lookup(e.context, "p4_changelist")) && Truthy(Lookup(e.context, "commit_id")))
            && RepoVcs(e) in {"p4", "git", "unknown"}
  {
    if Truthy(Lookup(e.context, "root_path")) {
      assert "root_path" in e.context;
    } else if Truthy(Lookup(e.context, "cwd")) {
      assert "cwd" in e.context;
    }
  }
}
