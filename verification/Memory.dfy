/** Candidates, versioned cards, their evidence, decisions and lifecycle log as
    one value (src/codememory/consolidation/store.py, extraction/store.py). Ids the
    source derives by hashing are modelled by the hashed values themselves. */
module Memory {
  import opened Base

  datatype Kind = RouteObservation | Decided | Convention | Failure | Validation | Preference | AntiBinding

  datatype Status = Proposed | Verified | Stable | Uncertain | Stale | Superseded | Rejected

  datatype Binding = Binding(role: string, path: string, symbol: string, qualified: string)

  datatype Candidate = Candidate(
    id: string, run: string, project: string, task: string, kind: Kind, statement: string, aliases: seq<string>,
    bindings: seq<Binding>, evidence: seq<string>, confidence: real, uncertainty: string)

  /** Owner of a stored event. */
  datatype Owner = Owner(project: string, task: string)

  /** `_canonical_key`: kind, normalised statement and binding targets. */
  datatype CanonicalKey = CanonicalKey(kind: Kind, text: string, targets: set<string>)

  datatype CardId = CardId(project: string, kind: Kind, key: CanonicalKey)

  datatype VersionId = VersionId(card: CardId, number: nat)

  datatype Card = Card(project: string, task: string, kind: Kind, key: CanonicalKey, status: Status,
                       confidence: real, current: nat)

  datatype Version = Version(statement: string, aliases: seq<string>, confidence: real, uncertainty: string,
                             source: string, open: bool, supersedes: Option<nat>, bindings: seq<Binding>)

  datatype Evidence = Evidence(version: VersionId, candidate: string, event: string)

  datatype Fingerprint = Fingerprint(project: string, task: string, kind: Kind, statement: string,
                                     aliases: seq<string>, bindings: seq<Binding>, evidence: seq<string>)

  datatype DecisionKey = DecisionKey(policy: string, candidate: string, content: Fingerprint)

  datatype Action = Create | Merge | NewVersion | Reject | MarkUncertain

  datatype Decision = Decision(action: Action, version: Option<VersionId>)

  /** `operator`: written by an explicit transition, not by the consolidator. */
  datatype LogRow = LogRow(card: CardId, from: Status, to: Status, operator: bool)

  datatype Store = Store(
    events: map<string, Owner>,
    candidates: map<string, Candidate>,
    cards: map<CardId, Card>,
    versions: map<VersionId, Version>,
    evidence: set<Evidence>,
    decisions: map<DecisionKey, Decision>,
    log: seq<LogRow>)

  const EMPTY := Store(map[], map[], map[], map[], {}, map[], [])

  /** The text functions the policy applies: regular expressions and case folding. */
  datatype Policy = Policy(version: string, norm: string -> string, tokens: string -> set<string>,
                           target: Binding -> string)

  function Targets(p: Policy, bindings: seq<Binding>): set<string> {
    set b | b in bindings && p.target(b) != "" :: p.target(b)
  }

  function KeyOf(p: Policy, c: Candidate): CanonicalKey {
    CanonicalKey(c.kind, p.norm(c.statement), Targets(p, c.bindings))
  }

  function CardIdOf(p: Policy, c: Candidate): CardId { CardId(c.project, c.kind, KeyOf(p, c)) }

  function DecisionKeyOf(policy: string, c: Candidate): DecisionKey {
    DecisionKey(policy, c.id,
                Fingerprint(c.project, c.task, c.kind, c.statement, c.aliases, c.bindings, c.evidence))
  }

  function MaxReal(a: real, b: real): real { if a < b then b else a }

  /******* Rows *******/

  function EvidenceOf(v: VersionId, c: Candidate): set<Evidence> {
    set e | e in c.evidence :: Evidence(v, c.id, e)
  }

  /** The order-preserving de-duplication of `_unique_strings`. */
  function UniqueStrings(values: seq<string>): seq<string>
    decreases |values|
  {
    if values == [] then []
    else
      var before := UniqueStrings(values[..|values| - 1]);
      var last := values[|values| - 1];
      if last == "" || last in before then before else before + [last]
  }

  /** The bindings a version stores: targets not blank, one per (role, target). */
  function DistinctBindings(p: Policy, bindings: seq<Binding>): seq<Binding>
    decreases |bindings|
  {
    if bindings == [] then []
    else
      var before := DistinctBindings(p, bindings[..|bindings| - 1]);
      var last := bindings[|bindings| - 1];
      if p.target(last) == "" || exists b :: b in before && b.role == last.role && p.target(b) == p.target(last)
      then before else before + [last]
  }

  function InsertCard(s: Store, p: Policy, c: Candidate, status: Status): Store {
    var id := CardIdOf(p, c);
    var v := VersionId(id, 1);
    s.(cards := s.cards[id := Card(c.project, c.task, c.kind, id.key, status, Clamp(c.confidence), 1)],
       versions := s.versions[v := Version(c.statement, UniqueStrings(c.aliases), Clamp(c.confidence), c.uncertainty,
                                           c.id, true, None, DistinctBindings(p, c.bindings))],
       evidence := s.evidence + EvidenceOf(v, c))
  }

  /** `_create_card`: an existing key falls back to the existing card untouched. */
  function CreateCard(s: Store, p: Policy, c: Candidate, status: Status): Store {
    if CardIdOf(p, c) in s.cards then s else InsertCard(s, p, c, status)
  }

  function CurrentOf(s: Store, id: CardId): VersionId
    requires id in s.cards
  {
    VersionId(id, s.cards[id].current)
  }

  function MergeInto(s: Store, c: Candidate, id: CardId): Store
    requires id in s.cards
  {
    var card := s.cards[id];
    s.(evidence := s.evidence + EvidenceOf(CurrentOf(s, id), c),
       cards := s.cards[id := card.(confidence := MaxReal(card.confidence, c.confidence))])
  }

  /** `_merge_bindings`: one binding per (role, target), the older first. */
  function MergeBindings(p: Policy, old_: seq<Binding>, new_: seq<Binding>): seq<Binding> {
    DistinctBindings(p, old_ + new_)
  }

  function AppendVersion(s: Store, p: Policy, c: Candidate, id: CardId): Store
    requires id in s.cards && CurrentOf(s, id) in s.versions
  {
    var card := s.cards[id];
    var last := s.versions[CurrentOf(s, id)];
    var v := VersionId(id, card.current + 1);
    var next := Version(c.statement, UniqueStrings(last.aliases + c.aliases),
                        Clamp(MaxReal(card.confidence, c.confidence)), c.uncertainty, c.id, true, Some(card.current),
                        MergeBindings(p, last.bindings, c.bindings));
    s.(versions := s.versions[v := next][CurrentOf(s, id) := last.(open := false)],
       evidence := s.evidence + EvidenceOf(v, c),
       cards := s.cards[id := card.(current := card.current + 1,
                                    confidence := MaxReal(card.confidence, c.confidence))])
  }

  predicate Established(status: Status) { status.Verified? || status.Stable? }

  /** A material observation sends a verified or stable card back to review. */
  function Demote(s: Store, id: CardId): Store
    requires id in s.cards
  {
    if Established(s.cards[id].status)
    then s.(cards := s.cards[id := s.cards[id].(status := Uncertain)],
            log := s.log + [LogRow(id, s.cards[id].status, Uncertain, false)])
    else s
  }

  function Decide(s: Store, key: DecisionKey, d: Decision): Store {
    s.(decisions := s.decisions[key := d])
  }

  /** The transition table. */
  predicate Permitted(from: Status, to: Status) {
    match from
    case Proposed => to.Verified? || to.Stable? || to.Uncertain? || to.Rejected? || to.Stale?
    case Verified => to.Stable? || to.Stale? || to.Superseded? || to.Uncertain? || to.Rejected?
    case Stable => to.Stale? || to.Superseded? || to.Rejected?
    case Uncertain => to.Proposed? || to.Verified? || to.Stable? || to.Rejected? || to.Stale?
    case Stale => to.Verified? || to.Stable? || to.Superseded? || to.Rejected?
    case Superseded => false
    case Rejected => to.Proposed? || to.Uncertain?
  }

  /******* Operations *******/

  /** What the matcher decided about a candidate. */
  datatype Choice = NoMatch | Ambiguous | Same(card: CardId) | Changed(card: CardId)

  datatype Op =
    | AddEvent(event: string, owner: Owner)
    | RecordSuccess(run: string, batch: seq<Candidate>)
    | Consolidate(policy: Policy, candidate: string, choice: Choice)
    | Quarantine(policy: Policy, candidate: string)
    | Transition(card: CardId, to: Status)

  function CandidatesOf(s: Store, run: string): set<string> {
    set id | id in s.candidates && s.candidates[id].run == run
  }

  /** Is one of these candidates cited by card evidence or by a decision? */
  predicate Cited(s: Store, ids: set<string>) {
    || (exists e :: e in s.evidence && e.candidate in ids)
    || (exists k :: k in s.decisions && k.candidate in ids)
  }

  /** A cited generation is kept; any other is replaced in place. */
  function Remaining(s: Store, run: string): map<string, Candidate> {
    if Cited(s, CandidatesOf(s, run)) then s.candidates else s.candidates - CandidatesOf(s, run)
  }

  function WithAll(m: map<string, Candidate>, batch: seq<Candidate>): map<string, Candidate>
    decreases |batch|
  {
    if batch == [] then m
    else WithAll(m, batch[..|batch| - 1])[batch[|batch| - 1].id := batch[|batch| - 1]]
  }

  function Apply(s: Store, op: Op): Store
    requires Legal(s, op)
  {
    match op
    case AddEvent(e, owner) => if e in s.events then s else s.(events := s.events[e := owner])
    case RecordSuccess(run, batch) => s.(candidates := WithAll(Remaining(s, run), batch))
    case Consolidate(p, id, choice) =>
      var c := s.candidates[id];
      if DecisionKeyOf(p.version, c) in s.decisions then s else Act(s, p, c, choice)
    case Quarantine(p, id) =>
      var key := DecisionKeyOf(p.version, s.candidates[id]);
      if key in s.decisions then s else Decide(s, key, Decision(Reject, None))
    case Transition(id, to) =>
      if id in s.cards && s.cards[id].status != to && Permitted(s.cards[id].status, to)
      then s.(cards := s.cards[id := s.cards[id].(status := to)],
              log := s.log + [LogRow(id, s.cards[id].status, to, true)])
      else s
  }

  /** One candidate, first seen under this policy. */
  function Act(s: Store, p: Policy, c: Candidate, choice: Choice): Store
    requires choice.Same? || choice.Changed? ==> Active(s, choice.card, c)
  {
    var key := DecisionKeyOf(p.version, c);
    match choice
    case NoMatch => Settle(CreateCard(s, p, c, Proposed), key, Create, CardIdOf(p, c))
    case Ambiguous => Settle(CreateCard(s, p, c, Uncertain), key, MarkUncertain, CardIdOf(p, c))
    case Same(card) => Settle(MergeInto(s, c, card), key, Merge, card)
    case Changed(card) => Settle(Demote(AppendVersion(s, p, c, card), card), key, NewVersion, card)
  }

  function Settle(s: Store, key: DecisionKey, action: Action, id: CardId): Store
    requires id in s.cards
  {
    Decide(s, key, Decision(action, Some(CurrentOf(s, id))))
  }

  predicate Active(s: Store, id: CardId, c: Candidate) {
    && id in s.cards && CurrentOf(s, id) in s.versions
    && s.cards[id].project == c.project && s.cards[id].kind == c.kind
    && !s.cards[id].status.Rejected? && !s.cards[id].status.Superseded?
  }

  /** Every evidence event is stored and belongs to the candidate's task and project. */
  predicate Grounded(events: map<string, Owner>, c: Candidate) {
    c.evidence != [] && forall e :: e in c.evidence ==> e in events && events[e] == Owner(c.project, c.task)
  }

  /** What the callers of the store guarantee: extraction validates its batch and
      gives it fresh ids, and the matcher only names active cards. */
  predicate Legal(s: Store, op: Op) {
    match op
    case AddEvent(_, _) => true
    case RecordSuccess(run, batch) =>
      && (forall i, k :: 0 <= i < k < |batch| ==> batch[i].id != batch[k].id)
      && forall c :: c in batch ==>
           c.id !in Remaining(s, run) && c.run == run && Grounded(s.events, c) && 0.0 <= c.confidence <= 1.0
    case Consolidate(_, id, choice) =>
      id in s.candidates
      && (choice.Same? || choice.Changed? ==> Active(s, choice.card, s.candidates[id]))
    case Quarantine(_, id) => id in s.candidates
    case Transition(_, _) => true
  }
}
