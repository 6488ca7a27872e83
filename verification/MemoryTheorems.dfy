/** Version chains, evidence closure, confidence and lifecycle over every run. */
module MemoryTheorems {
  import opened Base
  import opened Memory

  /******* Invariant *******/

  /** Versions 1..n without gaps, each superseding the one before, only n open. */
  ghost predicate Chain(versions: map<VersionId, Version>, id: CardId, current: nat) {
    && 1 <= current
    && (forall n: nat :: VersionId(id, n) in versions <==> 1 <= n <= current)
    && (forall n: nat :: 1 <= n <= current ==>
          && versions[VersionId(id, n)].supersedes == (if n == 1 then None else Some(n - 1))
          && (versions[VersionId(id, n)].open <==> n == current))
  }

  ghost predicate Chained(s: Store) {
    && (forall id :: id in s.cards ==> Chain(s.versions, id, s.cards[id].current))
    && (forall v :: v in s.versions ==> v.card in s.cards)
  }

  /** One card per (project, kind, canonical key). */
  ghost predicate Keyed(s: Store) {
    forall id :: id in s.cards ==>
      s.cards[id].project == id.project && s.cards[id].kind == id.kind && s.cards[id].key == id.key
  }

  ghost predicate CandidatesSound(s: Store) {
    forall id :: id in s.candidates ==>
      s.candidates[id].id == id && Grounded(s.events, s.candidates[id]) && 0.0 <= s.candidates[id].confidence <= 1.0
  }

  /** Evidence cites a live candidate of the card's project, and one of its events. */
  ghost predicate Closed(s: Store) {
    forall e :: e in s.evidence ==>
      && e.version in s.versions && e.candidate in s.candidates
      && e.event in s.candidates[e.candidate].evidence
      && s.candidates[e.candidate].project == e.version.card.project
      && s.candidates[e.candidate].kind == e.version.card.kind
  }

  ghost predicate DecisionsSound(s: Store) {
    forall k :: k in s.decisions ==>
      k.candidate in s.candidates && k == DecisionKeyOf(k.policy, s.candidates[k.candidate])
  }

  ghost predicate IsMax(s: Store, id: CardId, top: real) {
    && (forall e :: e in s.evidence && e.version.card == id && e.candidate in s.candidates ==>
          s.candidates[e.candidate].confidence <= top)
    && (exists e :: e in s.evidence && e.version.card == id && e.candidate in s.candidates
                    && s.candidates[e.candidate].confidence == top)
  }

  /** A card's confidence is the maximum over the candidates in its evidence. */
  ghost predicate Confident(s: Store) {
    forall id :: id in s.cards ==> IsMax(s, id, s.cards[id].confidence)
  }

  function LogOf(log: seq<LogRow>, id: CardId): seq<LogRow>
    decreases |log|
  {
    if log == [] then []
    else LogOf(log[..|log| - 1], id) + if log[|log| - 1].card == id then [log[|log| - 1]] else []
  }

  /** A step of the lifecycle: the operator's table, or the consolidator's demotion. */
  predicate Step(r: LogRow) {
    if r.operator then Permitted(r.from, r.to) else Established(r.from) && r.to.Uncertain?
  }

  predicate Birth(status: Status) { status.Proposed? || status.Uncertain? }

  /** The rows lead from a creation status to `status`. */
  predicate Path(rows: seq<LogRow>, status: Status) {
    && (forall i :: 0 <= i < |rows| ==> Step(rows[i]))
    && (forall i :: 0 < i < |rows| ==> rows[i - 1].to == rows[i].from)
    && (if rows == [] then Birth(status) else Birth(rows[0].from) && rows[|rows| - 1].to == status)
  }

  ghost predicate Logged(s: Store) {
    && (forall id :: id in s.cards ==> Path(LogOf(s.log, id), s.cards[id].status))
    && (forall r :: r in s.log ==> r.card in s.cards)
  }

  ghost predicate Inv(s: Store) {
    Chained(s) && Keyed(s) && CandidatesSound(s) && Closed(s) && DecisionsSound(s) && Confident(s) && Logged(s)
  }

  lemma EmptyInv()
    ensures Inv(EMPTY)
  {
  }

  /******* Building blocks keep it *******/

  /** Adding one candidate's evidence to a version of `id` raises the maximum to
      the larger of the two. */
  lemma MaxWith(s: Store, t: Store, id: CardId, v: VersionId, c: Candidate, top: real)
    requires c.id in s.candidates && s.candidates[c.id] == c && c.evidence != [] && v.card == id
    requires t.candidates == s.candidates && t.evidence == s.evidence + EvidenceOf(v, c)
    requires IsMax(s, id, top)
    ensures IsMax(t, id, MaxReal(top, c.confidence))
  {
    var mine := Evidence(v, c.id, c.evidence[0]);
    assert mine in EvidenceOf(v, c);
    var best :| best in s.evidence && best.version.card == id && best.candidate in s.candidates
                && s.candidates[best.candidate].confidence == top;
    assert best in t.evidence && mine in t.evidence;
  }

  lemma MaxOfFirst(s: Store, t: Store, id: CardId, v: VersionId, c: Candidate)
    requires c.id in s.candidates && s.candidates[c.id] == c && c.evidence != [] && v.card == id
    requires t.candidates == s.candidates && t.evidence == s.evidence + EvidenceOf(v, c)
    requires forall e :: e in s.evidence ==> e.version.card != id
    ensures IsMax(t, id, c.confidence)
  {
    var mine := Evidence(v, c.id, c.evidence[0]);
    assert mine in EvidenceOf(v, c);
    assert mine in t.evidence;
  }

  lemma MaxElsewhere(s: Store, t: Store, id: CardId, v: VersionId, c: Candidate, top: real)
    requires v.card != id && t.candidates == s.candidates && t.evidence == s.evidence + EvidenceOf(v, c)
    requires IsMax(s, id, top)
    ensures IsMax(t, id, top)
  {
    var best :| best in s.evidence && best.version.card == id && best.candidate in s.candidates
                && s.candidates[best.candidate].confidence == top;
    assert best in t.evidence;
  }

  lemma {:induction false} LogOfOther(log: seq<LogRow>, id: CardId)
    requires forall r :: r in log ==> r.card != id
    ensures LogOf(log, id) == []
    decreases |log|
  {
    if log != [] {
      assert log[|log| - 1] in log;
      LogOfOther(log[..|log| - 1], id);
    }
  }

  lemma LogSnoc(log: seq<LogRow>, r: LogRow, id: CardId)
    ensures LogOf(log + [r], id) == if r.card == id then LogOf(log, id) + [r] else LogOf(log, id)
  {
    assert (log + [r])[..|log|] == log;
  }

  /******* Frames: what leaves a conjunct alone *******/

  lemma ChainedFrame(s: Store, t: Store)
    requires Chained(s) && t.versions == s.versions && t.cards.Keys == s.cards.Keys
    requires forall id :: id in s.cards ==> t.cards[id].current == s.cards[id].current
    ensures Chained(t)
  {
    forall k | k in t.cards ensures Chain(t.versions, k, t.cards[k].current) {
      assert Chain(s.versions, k, s.cards[k].current);
    }
  }

  lemma KeyedFrame(s: Store, t: Store)
    requires Keyed(s)
    requires forall id :: id in t.cards ==>
               (t.cards[id].project == id.project && t.cards[id].kind == id.kind && t.cards[id].key == id.key)
               || (id in s.cards && t.cards[id].project == s.cards[id].project
                   && t.cards[id].kind == s.cards[id].kind && t.cards[id].key == s.cards[id].key)
    ensures Keyed(t)
  {
  }

  lemma CandidatesFrame(s: Store, t: Store)
    requires CandidatesSound(s) && t.candidates == s.candidates && t.events == s.events
    ensures CandidatesSound(t)
  {
  }

  lemma DecisionsFrame(s: Store, t: Store)
    requires DecisionsSound(s) && t.candidates == s.candidates && t.decisions == s.decisions
    ensures DecisionsSound(t)
  {
  }

  lemma ClosedFrame(s: Store, t: Store)
    requires Closed(s) && t.candidates == s.candidates && t.evidence == s.evidence
    requires s.versions.Keys <= t.versions.Keys
    ensures Closed(t)
  {
  }

  lemma ConfidentFrame(s: Store, t: Store)
    requires Confident(s) && t.candidates == s.candidates && t.evidence == s.evidence && t.cards.Keys == s.cards.Keys
    requires forall id :: id in s.cards ==> t.cards[id].confidence == s.cards[id].confidence
    ensures Confident(t)
  {
    forall k | k in t.cards ensures IsMax(t, k, t.cards[k].confidence) {
      assert IsMax(s, k, s.cards[k].confidence);
    }
  }

  lemma LoggedFrame(s: Store, t: Store)
    requires Logged(s) && t.log == s.log && t.cards.Keys == s.cards.Keys
    requires forall id :: id in s.cards ==> t.cards[id].status == s.cards[id].status
    ensures Logged(t)
  {
  }

  /******* Creating a card *******/

  lemma GroundedNonEmpty(s: Store, c: Candidate)
    requires CandidatesSound(s) && c.id in s.candidates && s.candidates[c.id] == c
    ensures c.evidence != [] && Clamp(c.confidence) == c.confidence && 0.0 <= c.confidence
  {
  }

  lemma InsertChained(s: Store, t: Store, id: CardId, row: Version)
    requires Chained(s) && id !in s.cards && row.open && row.supersedes.None?
    requires t.cards.Keys == s.cards.Keys + {id} && t.cards[id].current == 1
    requires forall k :: k in s.cards ==> t.cards[k] == s.cards[k]
    requires t.versions == s.versions[VersionId(id, 1) := row]
    ensures Chained(t)
  {
    forall n: nat ensures VersionId(id, n) !in s.versions {
    }
    forall k | k in t.cards ensures Chain(t.versions, k, t.cards[k].current) {
      if k != id {
        assert Chain(s.versions, k, s.cards[k].current);
      }
    }
  }

  lemma ClosedWith(s: Store, t: Store, v: VersionId, c: Candidate)
    requires Closed(s) && c.id in s.candidates && s.candidates[c.id] == c
    requires v.card.project == c.project && v.card.kind == c.kind
    requires t.candidates == s.candidates && t.evidence == s.evidence + EvidenceOf(v, c)
    requires s.versions.Keys <= t.versions.Keys && v in t.versions
    ensures Closed(t)
  {
  }

  lemma InsertConfident(s: Store, t: Store, id: CardId, v: VersionId, c: Candidate)
    requires Confident(s) && Closed(s) && Chained(s) && id !in s.cards && v.card == id
    requires c.id in s.candidates && s.candidates[c.id] == c && c.evidence != []
    requires t.candidates == s.candidates && t.evidence == s.evidence + EvidenceOf(v, c)
    requires t.cards.Keys == s.cards.Keys + {id} && t.cards[id].confidence == c.confidence
    requires forall k :: k in s.cards ==> t.cards[k] == s.cards[k]
    ensures Confident(t)
  {
    forall e | e in s.evidence ensures e.version.card != id {
      assert e.version in s.versions;
    }
    MaxOfFirst(s, t, id, v, c);
    forall other | other in s.cards ensures IsMax(t, other, t.cards[other].confidence) {
      assert IsMax(s, other, s.cards[other].confidence);
      MaxElsewhere(s, t, other, v, c, s.cards[other].confidence);
    }
  }

  lemma InsertLogged(s: Store, t: Store, id: CardId)
    requires Logged(s) && t.log == s.log && id !in s.cards
    requires t.cards.Keys == s.cards.Keys + {id} && Birth(t.cards[id].status)
    requires forall k :: k in s.cards ==> t.cards[k] == s.cards[k]
    ensures Logged(t)
  {
    LogOfOther(s.log, id);
  }

  lemma InsertCardInv(s: Store, p: Policy, c: Candidate, status: Status)
    requires Inv(s) && c.id in s.candidates && s.candidates[c.id] == c && Birth(status)
    requires CardIdOf(p, c) !in s.cards
    ensures Inv(InsertCard(s, p, c, status))
  {
    hide UniqueStrings, KeyOf, Chained, Keyed, CandidatesSound, Closed, DecisionsSound, Confident, Logged, EvidenceOf;
    var id := CardIdOf(p, c);
    var v := VersionId(id, 1);
    var t := InsertCard(s, p, c, status);
    GroundedNonEmpty(s, c);
    InsertChained(s, t, id, t.versions[v]);
    KeyedFrame(s, t);
    CandidatesFrame(s, t);
    ClosedWith(s, t, v, c);
    DecisionsFrame(s, t);
    InsertConfident(s, t, id, v, c);
    InsertLogged(s, t, id);
  }

  /******* Merging and versioning *******/

  lemma RaisedConfident(s: Store, t: Store, id: CardId, v: VersionId, c: Candidate)
    requires Confident(s) && id in s.cards && v.card == id
    requires c.id in s.candidates && s.candidates[c.id] == c && c.evidence != []
    requires t.candidates == s.candidates && t.evidence == s.evidence + EvidenceOf(v, c)
    requires t.cards.Keys == s.cards.Keys
    requires t.cards[id].confidence == MaxReal(s.cards[id].confidence, c.confidence)
    requires forall k :: k in s.cards && k != id ==> t.cards[k] == s.cards[k]
    ensures Confident(t)
  {
    assert IsMax(s, id, s.cards[id].confidence);
    MaxWith(s, t, id, v, c, s.cards[id].confidence);
    forall other | other in s.cards && other != id ensures IsMax(t, other, t.cards[other].confidence) {
      assert IsMax(s, other, s.cards[other].confidence);
      MaxElsewhere(s, t, other, v, c, s.cards[other].confidence);
    }
  }

  lemma OfItsProject(s: Store, c: Candidate, id: CardId)
    requires Keyed(s) && Active(s, id, c)
    ensures id.project == c.project && id.kind == c.kind
  {
  }

  lemma MergeInv(s: Store, c: Candidate, id: CardId)
    requires Inv(s) && c.id in s.candidates && s.candidates[c.id] == c && Active(s, id, c)
    ensures Inv(MergeInto(s, c, id))
  {
    hide Chained, Keyed, CandidatesSound, Closed, DecisionsSound, Confident, Logged, EvidenceOf;
    var t := MergeInto(s, c, id);
    var v := CurrentOf(s, id);
    GroundedNonEmpty(s, c);
    OfItsProject(s, c, id);
    ChainedFrame(s, t);
    KeyedFrame(s, t);
    CandidatesFrame(s, t);
    ClosedWith(s, t, v, c);
    DecisionsFrame(s, t);
    RaisedConfident(s, t, id, v, c);
    LoggedFrame(s, t);
  }

  lemma AppendChained(s: Store, t: Store, id: CardId, next: Version)
    requires Chained(s) && id in s.cards && next.open && next.supersedes == Some(s.cards[id].current)
    requires CurrentOf(s, id) in s.versions
    requires t.versions == s.versions[VersionId(id, s.cards[id].current + 1) := next]
                                     [CurrentOf(s, id) := s.versions[CurrentOf(s, id)].(open := false)]
    requires t.cards.Keys == s.cards.Keys && t.cards[id].current == s.cards[id].current + 1
    requires forall k :: k in s.cards && k != id ==> t.cards[k] == s.cards[k]
    ensures Chained(t)
  {
    assert Chain(s.versions, id, s.cards[id].current);
    assert Chain(t.versions, id, t.cards[id].current);
    forall k | k in t.cards && k != id ensures Chain(t.versions, k, t.cards[k].current) {
      assert Chain(s.versions, k, s.cards[k].current);
    }
  }

  lemma AppendInv(s: Store, p: Policy, c: Candidate, id: CardId)
    requires Inv(s) && c.id in s.candidates && s.candidates[c.id] == c && Active(s, id, c)
    ensures Inv(AppendVersion(s, p, c, id))
  {
    hide UniqueStrings, MergeBindings, Clamp, Chained, Keyed, CandidatesSound, Closed, DecisionsSound, Confident,
      Logged, EvidenceOf;
    var t := AppendVersion(s, p, c, id);
    var v := VersionId(id, s.cards[id].current + 1);
    GroundedNonEmpty(s, c);
    OfItsProject(s, c, id);
    AppendChained(s, t, id, t.versions[v]);
    KeyedFrame(s, t);
    CandidatesFrame(s, t);
    ClosedWith(s, t, v, c);
    DecisionsFrame(s, t);
    RaisedConfident(s, t, id, v, c);
    LoggedFrame(s, t);
  }

  /******* Lifecycle moves and decisions *******/

  lemma MoveLogged(s: Store, t: Store, id: CardId, r: LogRow)
    requires Logged(s) && id in s.cards && Step(r) && r.card == id && r.from == s.cards[id].status
    requires t.log == s.log + [r] && t.cards.Keys == s.cards.Keys && t.cards[id].status == r.to
    requires forall k :: k in s.cards && k != id ==> t.cards[k] == s.cards[k]
    ensures Logged(t)
  {
    hide Path, LogOf, Step;
    forall k | k in t.cards ensures Path(LogOf(t.log, k), t.cards[k].status) {
      LogSnoc(s.log, r, k);
      if k == id {
        PathSnoc(LogOf(s.log, id), r);
      }
    }
  }

  lemma PathSnoc(rows: seq<LogRow>, r: LogRow)
    requires Path(rows, r.from) && Step(r)
    ensures Path(rows + [r], r.to)
  {
    hide Step;
  }

  /** Moving a card's status with its log row. */
  lemma MoveInv(s: Store, t: Store, id: CardId, to: Status, operator: bool)
    requires Inv(s) && id in s.cards && Step(LogRow(id, s.cards[id].status, to, operator))
    requires t == s.(cards := s.cards[id := s.cards[id].(status := to)],
                     log := s.log + [LogRow(id, s.cards[id].status, to, operator)])
    ensures Inv(t)
  {
    hide Chained, Keyed, CandidatesSound, Closed, DecisionsSound, Confident, Logged, Step;
    ChainedFrame(s, t);
    KeyedFrame(s, t);
    CandidatesFrame(s, t);
    ClosedFrame(s, t);
    DecisionsFrame(s, t);
    ConfidentFrame(s, t);
    MoveLogged(s, t, id, LogRow(id, s.cards[id].status, to, operator));
  }

  lemma DemoteInv(s: Store, id: CardId)
    requires Inv(s) && id in s.cards
    ensures Inv(Demote(s, id))
  {
    hide Inv;
    if Established(s.cards[id].status) {
      MoveInv(s, Demote(s, id), id, Uncertain, false);
    }
  }

  lemma DecideSound(s: Store, policy: string, c: Candidate, d: Decision)
    requires DecisionsSound(s) && c.id in s.candidates && s.candidates[c.id] == c
    ensures DecisionsSound(Decide(s, DecisionKeyOf(policy, c), d))
  {
  }

  lemma DecideInv(s: Store, policy: string, c: Candidate, d: Decision)
    requires Inv(s) && c.id in s.candidates && s.candidates[c.id] == c
    ensures Inv(Decide(s, DecisionKeyOf(policy, c), d))
  {
    hide Chained, Keyed, CandidatesSound, Closed, DecisionsSound, Confident, Logged, DecisionKeyOf;
    var t := Decide(s, DecisionKeyOf(policy, c), d);
    ChainedFrame(s, t);
    KeyedFrame(s, t);
    CandidatesFrame(s, t);
    ClosedFrame(s, t);
    DecideSound(s, policy, c, d);
    ConfidentFrame(s, t);
    LoggedFrame(s, t);
  }

  /******* Extraction and events *******/

  lemma {:induction false} WithAllLookup(m: map<string, Candidate>, batch: seq<Candidate>, id: string)
    ensures id in WithAll(m, batch) <==> id in m || exists c :: c in batch && c.id == id
    ensures id in WithAll(m, batch) ==>
              (WithAll(m, batch)[id] in batch && WithAll(m, batch)[id].id == id)
              || (id in m && WithAll(m, batch)[id] == m[id])
    ensures (forall c :: c in batch ==> c.id != id) && id in m ==> WithAll(m, batch)[id] == m[id]
    decreases |batch|
  {
    if batch != [] {
      var last := batch[|batch| - 1];
      WithAllLookup(m, batch[..|batch| - 1], id);
      assert batch == batch[..|batch| - 1] + [last];
    }
  }

  /** Re-extraction never removes a candidate that evidence or a decision cites. */
  lemma RecordKeepsCited(s: Store, run: string, batch: seq<Candidate>, id: string)
    requires Legal(s, RecordSuccess(run, batch)) && id in s.candidates && Cited(s, {id})
    ensures var t := Apply(s, RecordSuccess(run, batch));
            id in t.candidates && t.candidates[id] == s.candidates[id]
  {
    if s.candidates[id].run == run {
      assert id in CandidatesOf(s, run);
    }
    assert id in Remaining(s, run);
    forall c | c in batch ensures c.id != id {
    }
    WithAllLookup(Remaining(s, run), batch, id);
  }

  lemma RecordCandidates(s: Store, run: string, batch: seq<Candidate>)
    requires CandidatesSound(s) && Legal(s, RecordSuccess(run, batch))
    ensures CandidatesSound(Apply(s, RecordSuccess(run, batch)))
  {
    hide Grounded, WithAll;
    var t := Apply(s, RecordSuccess(run, batch));
    forall id | id in t.candidates
      ensures t.candidates[id].id == id && Grounded(t.events, t.candidates[id])
              && 0.0 <= t.candidates[id].confidence <= 1.0
    {
      WithAllLookup(Remaining(s, run), batch, id);
    }
  }

  /** `t` still has every candidate that evidence or a decision of `s` cites. */
  ghost predicate KeepsCited(s: Store, t: Store) {
    && (forall e :: e in s.evidence && e.candidate in s.candidates ==>
          e.candidate in t.candidates && t.candidates[e.candidate] == s.candidates[e.candidate])
    && (forall k :: k in s.decisions && k.candidate in s.candidates ==>
          k.candidate in t.candidates && t.candidates[k.candidate] == s.candidates[k.candidate])
  }

  lemma RecordKeepsAll(s: Store, run: string, batch: seq<Candidate>)
    requires Legal(s, RecordSuccess(run, batch))
    ensures KeepsCited(s, Apply(s, RecordSuccess(run, batch)))
  {
    hide WithAll, Legal, Remaining, Apply;
    forall e | e in s.evidence && e.candidate in s.candidates
      ensures var t := Apply(s, RecordSuccess(run, batch));
              e.candidate in t.candidates && t.candidates[e.candidate] == s.candidates[e.candidate]
    {
      RecordKeepsCited(s, run, batch, e.candidate);
    }
    forall k | k in s.decisions && k.candidate in s.candidates
      ensures var t := Apply(s, RecordSuccess(run, batch));
              k.candidate in t.candidates && t.candidates[k.candidate] == s.candidates[k.candidate]
    {
      RecordKeepsCited(s, run, batch, k.candidate);
    }
  }

  /** Replacing uncited candidates leaves evidence, decisions and confidence alone. */
  lemma CitedFrame(s: Store, t: Store)
    requires Closed(s) && DecisionsSound(s) && Confident(s) && KeepsCited(s, t)
    requires t.evidence == s.evidence && t.versions == s.versions && t.decisions == s.decisions && t.cards == s.cards
    ensures Closed(t) && DecisionsSound(t) && Confident(t)
  {
    forall id | id in t.cards ensures IsMax(t, id, t.cards[id].confidence) {
      assert IsMax(s, id, s.cards[id].confidence);
      var best :| best in s.evidence && best.version.card == id && best.candidate in s.candidates
                  && s.candidates[best.candidate].confidence == s.cards[id].confidence;
      assert best in t.evidence;
    }
  }

  lemma RecordInv(s: Store, run: string, batch: seq<Candidate>)
    requires Inv(s) && Legal(s, RecordSuccess(run, batch))
    ensures Inv(Apply(s, RecordSuccess(run, batch)))
  {
    hide Legal, WithAll, Remaining, Chained, Keyed, CandidatesSound, Closed, DecisionsSound, Confident, Logged,
      KeepsCited;
    var t := Apply(s, RecordSuccess(run, batch));
    RecordCandidates(s, run, batch);
    RecordKeepsAll(s, run, batch);
    CitedFrame(s, t);
    ChainedFrame(s, t);
    KeyedFrame(s, t);
    LoggedFrame(s, t);
  }

  lemma CreateInv(s: Store, p: Policy, c: Candidate, status: Status, action: Action)
    requires Inv(s) && c.id in s.candidates && s.candidates[c.id] == c && Birth(status)
    ensures var t := CreateCard(s, p, c, status);
            CardIdOf(p, c) in t.cards && Inv(Settle(t, DecisionKeyOf(p.version, c), action, CardIdOf(p, c)))
  {
    hide Inv, InsertCard, CardIdOf, DecisionKeyOf, Birth;
    if CardIdOf(p, c) !in s.cards {
      InsertCardInv(s, p, c, status);
    }
    CreateKeeps(s, p, c, status);
    var t := CreateCard(s, p, c, status);
    DecideInv(t, p.version, c, Decision(action, Some(CurrentOf(t, CardIdOf(p, c)))));
  }

  lemma SameInv(s: Store, p: Policy, c: Candidate, id: CardId)
    requires Inv(s) && c.id in s.candidates && s.candidates[c.id] == c && Active(s, id, c)
    ensures id in MergeInto(s, c, id).cards
            && Inv(Settle(MergeInto(s, c, id), DecisionKeyOf(p.version, c), Merge, id))
  {
    hide Inv, MergeInto, DecisionKeyOf;
    MergeInv(s, c, id);
    MergeKeeps(s, c, id);
    DecideInv(MergeInto(s, c, id), p.version, c, Decision(Merge, Some(CurrentOf(MergeInto(s, c, id), id))));
  }

  lemma ChangedInv(s: Store, p: Policy, c: Candidate, id: CardId)
    requires Inv(s) && c.id in s.candidates && s.candidates[c.id] == c && Active(s, id, c)
    ensures id in AppendVersion(s, p, c, id).cards && id in Demote(AppendVersion(s, p, c, id), id).cards
    ensures Inv(Settle(Demote(AppendVersion(s, p, c, id), id), DecisionKeyOf(p.version, c), NewVersion, id))
  {
    hide Inv, AppendVersion, Demote, DecisionKeyOf;
    AppendInv(s, p, c, id);
    AppendKeeps(s, p, c, id);
    DemoteInv(AppendVersion(s, p, c, id), id);
    var t := Demote(AppendVersion(s, p, c, id), id);
    DecideInv(t, p.version, c, Decision(NewVersion, Some(CurrentOf(t, id))));
  }

  lemma ActInv(s: Store, p: Policy, c: Candidate, choice: Choice)
    requires Inv(s) && c.id in s.candidates && s.candidates[c.id] == c
    requires choice.Same? || choice.Changed? ==> Active(s, choice.card, c)
    ensures Inv(Act(s, p, c, choice))
  {
    hide Inv, CreateCard, MergeInto, AppendVersion, Demote, CardIdOf, DecisionKeyOf, Settle;
    match choice
    case NoMatch => CreateInv(s, p, c, Proposed, Create);
    case Ambiguous => CreateInv(s, p, c, Uncertain, MarkUncertain);
    case Same(card) => SameInv(s, p, c, card);
    case Changed(card) => ChangedInv(s, p, c, card);
  }

  lemma ConsolidateInv(s: Store, p: Policy, id: string, choice: Choice)
    requires Inv(s) && Legal(s, Consolidate(p, id, choice))
    ensures Inv(Apply(s, Consolidate(p, id, choice)))
  {
    assert s.candidates[id].id == id;
    hide Inv, Act, DecisionKeyOf, Active;
    ActInv(s, p, s.candidates[id], choice);
  }

  lemma CreateKeeps(s: Store, p: Policy, c: Candidate, status: Status)
    ensures CreateCard(s, p, c, status).candidates == s.candidates
    ensures CardIdOf(p, c) in CreateCard(s, p, c, status).cards
  {
  }

  lemma MergeKeeps(s: Store, c: Candidate, id: CardId)
    requires id in s.cards
    ensures MergeInto(s, c, id).candidates == s.candidates && id in MergeInto(s, c, id).cards
  {
  }

  lemma AppendKeeps(s: Store, p: Policy, c: Candidate, id: CardId)
    requires id in s.cards && CurrentOf(s, id) in s.versions
    ensures id in AppendVersion(s, p, c, id).cards
    ensures var t := Demote(AppendVersion(s, p, c, id), id);
            t.candidates == s.candidates && id in t.cards
  {
  }

  lemma AddEventInv(s: Store, event: string, owner: Owner)
    requires Inv(s)
    ensures Inv(Apply(s, AddEvent(event, owner)))
  {
    hide Chained, Keyed, Closed, DecisionsSound, Confident, Logged;
    var t := Apply(s, AddEvent(event, owner));
    ChainedFrame(s, t);
    KeyedFrame(s, t);
    ClosedFrame(s, t);
    DecisionsFrame(s, t);
    ConfidentFrame(s, t);
    LoggedFrame(s, t);
  }

  lemma ApplyInv(s: Store, op: Op)
    requires Inv(s) && Legal(s, op)
    ensures Inv(Apply(s, op))
  {
    match op
    case AddEvent(e, owner) => AddEventInv(s, e, owner);
    case RecordSuccess(run, batch) => RecordInv(s, run, batch);
    case Consolidate(p, id, choice) => ConsolidateInv(s, p, id, choice);
    case Quarantine(p, id) =>
      assert s.candidates[id].id == id;
      DecideInv(s, p.version, s.candidates[id], Decision(Reject, None));
    case Transition(id, to) =>
      if id in s.cards && s.cards[id].status != to && Permitted(s.cards[id].status, to) {
        MoveInv(s, Apply(s, op), id, to, true);
      }
  }

  /******* Whole runs *******/

  predicate LegalRun(s: Store, ops: seq<Op>)
    decreases |ops|
  {
    ops == [] || (Legal(s, ops[0]) && LegalRun(Apply(s, ops[0]), ops[1..]))
  }

  function Exec(s: Store, ops: seq<Op>): Store
    requires LegalRun(s, ops)
    decreases |ops|
  {
    if ops == [] then s else Exec(Apply(s, ops[0]), ops[1..])
  }

  /** Events, extractions, consolidations and operator transitions in any order
      keep every version chain linear with one open version, evidence closed,
      confidence the maximum of its evidence, and the log a lawful path. */
  lemma {:induction false} RunInv(s: Store, ops: seq<Op>)
    requires Inv(s) && LegalRun(s, ops)
    ensures Inv(Exec(s, ops))
    decreases |ops|
  {
    hide Inv, Legal, Apply;
    if ops != [] {
      ApplyInv(s, ops[0]);
      RunInv(Apply(s, ops[0]), ops[1..]);
    }
  }

  /** Every evidence row names a stored event of its candidate's own task and project. */
  lemma EvidenceClosure(s: Store, e: Evidence)
    requires Inv(s) && e in s.evidence
    ensures e.candidate in s.candidates && e.event in s.events
    ensures s.events[e.event] == Owner(s.candidates[e.candidate].project, s.candidates[e.candidate].task)
    ensures e.version.card in s.cards && s.cards[e.version.card].project == s.candidates[e.candidate].project
  {
    assert e.version in s.versions;
  }

  /** Two cards never share project, kind and canonical key. */
  lemma OneCardPerKey(s: Store, a: CardId, b: CardId)
    requires Inv(s) && a in s.cards && b in s.cards
    requires s.cards[a].project == s.cards[b].project && s.cards[a].kind == s.cards[b].kind
             && s.cards[a].key == s.cards[b].key
    ensures a == b
  {
    assert s.cards[a].project == a.project && s.cards[b].project == b.project;
  }

  /** A card never goes away, `superseded` is never left, and only an explicit
      transition of that very card makes it verified or stable. */
  lemma StatusStep(s: Store, op: Op, id: CardId)
    requires Legal(s, op)
    ensures var t := Apply(s, op);
            && (id in s.cards ==> id in t.cards)
            && (id in s.cards && s.cards[id].status.Superseded? ==> t.cards[id].status.Superseded?)
            && (id in t.cards && Established(t.cards[id].status)
                && !(id in s.cards && s.cards[id].status == t.cards[id].status) ==>
                  op.Transition? && op.card == id && op.to == t.cards[id].status)
  {
    hide EvidenceOf, UniqueStrings, MergeBindings, Clamp, KeyOf, DecisionKeyOf, Grounded;
    if op.Consolidate? {
      var c := s.candidates[op.candidate];
      if DecisionKeyOf(op.policy.version, c) !in s.decisions {
        match op.choice
        case NoMatch => assert CardIdOf(op.policy, c) in s.cards || Birth(Proposed);
        case Ambiguous => assert CardIdOf(op.policy, c) in s.cards || Birth(Uncertain);
        case Same(card) =>
        case Changed(card) =>
      }
    }
  }

  lemma {:induction false} SupersededForever(s: Store, ops: seq<Op>, id: CardId)
    requires LegalRun(s, ops) && id in s.cards && s.cards[id].status.Superseded?
    ensures id in Exec(s, ops).cards && Exec(s, ops).cards[id].status.Superseded?
    decreases |ops|
  {
    hide Legal, Apply;
    if ops != [] {
      StatusStep(s, ops[0], id);
      SupersededForever(Apply(s, ops[0]), ops[1..], id);
    }
  }

  /******* Idempotence *******/

  predicate DecidedUnder(s: Store, policy: string, id: string) {
    id in s.candidates && DecisionKeyOf(policy, s.candidates[id]) in s.decisions
  }

  /** A candidate has at most one decision per policy. */
  lemma OneDecision(s: Store, j: DecisionKey, k: DecisionKey)
    requires Inv(s) && j in s.decisions && k in s.decisions && j.policy == k.policy && j.candidate == k.candidate
    ensures j == k
  {
  }

  /** Decisions are never dropped or rewritten, and decided candidates never change. */
  lemma DecisionStep(s: Store, op: Op, policy: string, id: string)
    requires Inv(s) && Legal(s, op) && DecidedUnder(s, policy, id)
    ensures var t := Apply(s, op);
            DecidedUnder(t, policy, id) && t.candidates[id] == s.candidates[id]
            && t.decisions[DecisionKeyOf(policy, t.candidates[id])] ==
               s.decisions[DecisionKeyOf(policy, s.candidates[id])]
  {
    assert s.candidates[id].id == id;
    if op.RecordSuccess? {
      assert DecisionKeyOf(policy, s.candidates[id]).candidate == id;
      RecordKeepsCited(s, op.run, op.batch, id);
    } else if op.Consolidate? && DecisionKeyOf(op.policy.version, s.candidates[op.candidate]) !in s.decisions {
      hide DecisionKeyOf, CardIdOf;
      ActDecides(s, op.policy, s.candidates[op.candidate], op.choice);
    }
  }

  lemma ActDecides(s: Store, p: Policy, c: Candidate, choice: Choice)
    requires choice.Same? || choice.Changed? ==> Active(s, choice.card, c)
    ensures Act(s, p, c, choice).candidates == s.candidates
    ensures var d := Act(s, p, c, choice).decisions;
            && DecisionKeyOf(p.version, c) in d
            && forall k :: k in s.decisions && k != DecisionKeyOf(p.version, c) ==> k in d && d[k] == s.decisions[k]
  {
    hide DecisionKeyOf, EvidenceOf, UniqueStrings, MergeBindings, Clamp, KeyOf;
    match choice
    case NoMatch =>
      CreateKeeps(s, p, c, Proposed);
    case Ambiguous =>
      CreateKeeps(s, p, c, Uncertain);
    case Same(card) =>
    case Changed(card) =>
      AppendKeeps(s, p, c, card);
  }

  lemma {:induction false} DecidedForever(s: Store, ops: seq<Op>, policy: string, id: string)
    requires Inv(s) && LegalRun(s, ops) && DecidedUnder(s, policy, id)
    ensures DecidedUnder(Exec(s, ops), policy, id) && Exec(s, ops).candidates[id] == s.candidates[id]
    decreases |ops|
  {
    hide Inv, Legal, Apply, DecidedUnder;
    if ops != [] {
      ApplyInv(s, ops[0]);
      DecisionStep(s, ops[0], policy, id);
      DecidedForever(Apply(s, ops[0]), ops[1..], policy, id);
    }
  }

  /** Consolidating a candidate leaves it decided. */
  lemma ConsolidateDecides(s: Store, p: Policy, id: string, choice: Choice)
    requires Legal(s, Consolidate(p, id, choice))
    ensures DecidedUnder(Apply(s, Consolidate(p, id, choice)), p.version, id)
    ensures DecidedUnder(Apply(s, Quarantine(p, id)), p.version, id)
  {
    hide DecisionKeyOf, Act, Active;
    if DecisionKeyOf(p.version, s.candidates[id]) !in s.decisions {
      ActDecides(s, p, s.candidates[id], choice);
    }
  }

  /** Idempotence: once consolidated, a candidate consolidated or quarantined again
      under the same policy changes nothing at all, whatever traffic came between
      and whatever the matcher or the quality gate now says. */
  lemma ConsolidationIdempotent(s: Store, p: Policy, id: string, first: Choice, between: seq<Op>, again: Choice)
    requires Inv(s) && Legal(s, Consolidate(p, id, first))
    requires LegalRun(Apply(s, Consolidate(p, id, first)), between)
    requires Legal(Exec(Apply(s, Consolidate(p, id, first)), between), Consolidate(p, id, again))
    ensures var t := Exec(Apply(s, Consolidate(p, id, first)), between);
            Apply(t, Consolidate(p, id, again)) == t && id in t.candidates && Apply(t, Quarantine(p, id)) == t
  {
    hide Inv, Act;
    var u := Apply(s, Consolidate(p, id, first));
    ApplyInv(s, Consolidate(p, id, first));
    ConsolidateDecides(s, p, id, first);
    DecidedForever(u, between, p.version, id);
  }

  /******* Which decisions cite their candidate *******/

  /** The candidate's key is taken, though nothing matched it. */
  predicate FallsBack(s: Store, p: Policy, c: Candidate, choice: Choice) {
    (choice.NoMatch? || choice.Ambiguous?) && CardIdOf(p, c) in s.cards
  }

  /** Evidence is only written together with a decision on its candidate. */
  ghost predicate EvidenceDecided(s: Store) {
    forall e :: e in s.evidence ==> exists k :: k in s.decisions && k.candidate == e.candidate
  }

  lemma DecidedStep(s: Store, op: Op)
    requires Inv(s) && EvidenceDecided(s) && Legal(s, op)
    ensures EvidenceDecided(Apply(s, op))
  {
    hide Inv, Act, CardIdOf, Grounded, Remaining, WithAll;
    var t := Apply(s, op);
    if op.Consolidate? && DecisionKeyOf(op.policy.version, s.candidates[op.candidate]) !in s.decisions {
      var c := s.candidates[op.candidate];
      var key := DecisionKeyOf(op.policy.version, c);
      ActCites(s, op.policy, c, op.choice);
      assert key in t.decisions && key.candidate == c.id;
    }
    assert forall k :: k in s.decisions ==> k in t.decisions by { DecisionsStay(s, op); }
  }

  lemma DecisionsStay(s: Store, op: Op)
    requires Legal(s, op)
    ensures forall k :: k in s.decisions ==> k in Apply(s, op).decisions
  {
    hide EvidenceOf, UniqueStrings, DistinctBindings, MergeBindings, Grounded, Remaining, WithAll, CardIdOf,
      DecisionKeyOf;
  }

  /** What deciding a candidate writes: its evidence under the decided version, unless the
      decision falls back to the card that holds its key; that card is left as it is. */
  lemma ActCites(s: Store, p: Policy, c: Candidate, choice: Choice)
    requires choice.Same? || choice.Changed? ==> Active(s, choice.card, c)
    ensures var t, key := Act(s, p, c, choice), DecisionKeyOf(p.version, c);
            && key in t.decisions && t.decisions[key].version.Some?
            && t.evidence ==
               s.evidence + (if FallsBack(s, p, c, choice) then {} else EvidenceOf(t.decisions[key].version.value, c))
            && (FallsBack(s, p, c, choice) ==> t.cards == s.cards && t.versions == s.versions)
  {
    hide EvidenceOf, UniqueStrings, DistinctBindings, MergeBindings, CardIdOf, DecisionKeyOf;
  }

  /** The first decision on a candidate cites its evidence exactly when it does not fall
      back, over every run. */
  lemma CitedUnlessFallback(ops: seq<Op>, p: Policy, id: string, choice: Choice)
    requires LegalRun(EMPTY, ops) && Legal(Exec(EMPTY, ops), Consolidate(p, id, choice))
    requires forall k :: k in Exec(EMPTY, ops).decisions ==> k.candidate != id
    ensures var s := Exec(EMPTY, ops);
            var t, c := Apply(s, Consolidate(p, id, choice)), s.candidates[id];
            var key := DecisionKeyOf(p.version, c);
            && key in t.decisions && t.decisions[key].version.Some?
            && ((exists e :: e in t.evidence && e.candidate == id) <==> !FallsBack(s, p, c, choice))
            && (forall event :: event in c.evidence ==>
                  (Evidence(t.decisions[key].version.value, id, event) in t.evidence <==> !FallsBack(s, p, c, choice)))
  {
    hide Inv, Act, Exec, LegalRun, FallsBack;
    var s := Exec(EMPTY, ops);
    EmptyInv();
    RunInv(EMPTY, ops);
    RunDecided(EMPTY, ops);
    var c := s.candidates[id];
    CandidateOf(s, id);
    assert DecisionKeyOf(p.version, c) !in s.decisions;
    ActCites(s, p, c, choice);
    var v := Apply(s, Consolidate(p, id, choice)).decisions[DecisionKeyOf(p.version, c)].version.value;
    assert Evidence(v, id, c.evidence[0]) in EvidenceOf(v, c);
  }

  lemma CandidateOf(s: Store, id: string)
    requires Inv(s) && id in s.candidates
    ensures s.candidates[id].id == id && s.candidates[id].evidence != []
  {
  }

  lemma {:induction false} RunDecided(s: Store, ops: seq<Op>)
    requires Inv(s) && EvidenceDecided(s) && LegalRun(s, ops)
    ensures EvidenceDecided(Exec(s, ops))
    decreases |ops|
  {
    hide Inv, EvidenceDecided, Legal, Apply;
    if ops != [] {
      ApplyInv(s, ops[0]);
      DecidedStep(s, ops[0]);
      RunDecided(Apply(s, ops[0]), ops[1..]);
    }
  }
}
