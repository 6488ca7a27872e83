/** Matching candidates to cards and writing the outcome
    (src/codememory/consolidation/service.py, consolidation/store.py). */
module Consolidation {
  import opened Base
  import opened Memory
  import opened MemoryTheorems

  /******* The matching policy *******/

  function Joined(statement: string, aliases: seq<string>): string
    decreases |aliases|
  {
    if aliases == [] then statement
    else Joined(statement, aliases[..|aliases| - 1]) + " " + aliases[|aliases| - 1]
  }

  function Ratio<T>(a: set<T>, b: set<T>): real
    requires a != {}
  {
    |a * b| as real / |a + b| as real
  }

  function Similarity(p: Policy, left: string, right: string): real {
    var a, b := p.tokens(left), p.tokens(right);
    if a == {} || b == {} then
      if p.norm(left) == p.norm(right) && p.norm(left) != "" then 1.0 else 0.0
    else Ratio(a, b)
  }

  function Overlap(left: set<string>, right: set<string>): real {
    if left == {} && right == {} then 1.0
    else if left == {} || right == {} then 0.0
    else Ratio(left, right)
  }

  datatype Rank = Rank(score: real, text: real, binding: real)

  predicate AtLeast(a: Rank, b: Rank) {
    a.score > b.score
    || (a.score == b.score && (a.text > b.text || (a.text == b.text && a.binding >= b.binding)))
  }

  function MinReal(a: real, b: real): real { if a < b then a else b }

  /** The score of a candidate against the current version of a card, not yet capped. */
  function RawScore(p: Policy, c: Candidate, v: Version, text: real, binding: real): real {
    var mine, theirs := Targets(p, c.bindings), Targets(p, v.bindings);
    if p.norm(c.statement) == p.norm(v.statement) then 1.0
    else if mine == {} || theirs == {} then text
    else
      var weighted := 0.58 * text + 0.42 * binding;
      if mine * theirs != {} && text >= 0.25
      then MaxReal(weighted, 0.56 + MinReal(0.30, text * 0.30))
      else weighted
  }

  function Minimum(p: Policy, c: Candidate, v: Version): real {
    if Targets(p, c.bindings) != {} && Targets(p, v.bindings) != {} then 0.56 else 0.72
  }

  function TextScore(p: Policy, c: Candidate, v: Version): real {
    Similarity(p, Joined(c.statement, c.aliases), Joined(v.statement, v.aliases))
  }

  function BindingScore(p: Policy, c: Candidate, v: Version): real {
    Overlap(Targets(p, c.bindings), Targets(p, v.bindings))
  }

  function RankOf(p: Policy, c: Candidate, v: Version): Rank {
    var text, binding := TextScore(p, c, v), BindingScore(p, c, v);
    Rank(MinReal(1.0, RawScore(p, c, v, text, binding)), text, binding)
  }

  predicate Scores(p: Policy, c: Candidate, v: Version) {
    RawScore(p, c, v, TextScore(p, c, v), BindingScore(p, c, v)) >= Minimum(p, c, v)
  }

  /** Active cards of the candidate's project and kind. */
  function Rows(s: Store, c: Candidate): set<CardId> {
    set id | id in s.cards && Active(s, id, c)
  }

  function VersionOf(s: Store, id: CardId): Version
    requires id in s.cards && CurrentOf(s, id) in s.versions
  {
    s.versions[CurrentOf(s, id)]
  }

  /** The rows sharing a target with the candidate. */
  function Sharing(s: Store, p: Policy, c: Candidate): set<CardId> {
    set id | id in Rows(s, c) && Targets(p, c.bindings) * Targets(p, VersionOf(s, id).bindings) != {}
  }

  /** Where any card shares a target, only those cards are compared. */
  function Compared(s: Store, p: Policy, c: Candidate): set<CardId> {
    if Sharing(s, p, c) != {} then Sharing(s, p, c) else Rows(s, c)
  }

  function Matches(s: Store, p: Policy, c: Candidate): set<CardId> {
    set id | id in Compared(s, p, c) && Scores(p, c, VersionOf(s, id))
  }

  /** The first of `ids` in the descending sort; card ids break ties in any order. */
  predicate Top(s: Store, p: Policy, c: Candidate, ids: set<CardId>, best: CardId) {
    && ids <= Rows(s, c) && best in ids
    && forall id :: id in ids ==> AtLeast(RankOf(p, c, VersionOf(s, best)), RankOf(p, c, VersionOf(s, id)))
  }

  predicate TooClose(best: Rank, second: Rank) {
    best.score < 0.9 && best.score - second.score < 0.08
  }

  /** Does the observation change the statement or the binding materially? */
  predicate Material(p: Policy, c: Candidate, v: Version) {
    var mine, theirs := Targets(p, c.bindings), Targets(p, v.bindings);
    TextScore(p, c, v) < 0.62 || (mine != {} && theirs != {} && Overlap(theirs, mine) < 0.35)
  }

  /** What `_find_matches`, `_is_ambiguous` and `_merge_or_version` may decide. */
  ghost predicate Justified(s: Store, p: Policy, c: Candidate, choice: Choice) {
    var all := Matches(s, p, c);
    match choice
    case NoMatch => all == {}
    case Ambiguous =>
      exists best, second :: Top(s, p, c, all, best) && Top(s, p, c, all - {best}, second)
        && TooClose(RankOf(p, c, VersionOf(s, best)), RankOf(p, c, VersionOf(s, second)))
    case Same(best) => Top(s, p, c, all, best) && Clear(s, p, c, best) && !Material(p, c, VersionOf(s, best))
    case Changed(best) => Top(s, p, c, all, best) && Clear(s, p, c, best) && Material(p, c, VersionOf(s, best))
  }

  ghost predicate Clear(s: Store, p: Policy, c: Candidate, best: CardId)
    requires best in Rows(s, c)
  {
    forall second :: Top(s, p, c, Matches(s, p, c) - {best}, second) ==>
      !TooClose(RankOf(p, c, VersionOf(s, best)), RankOf(p, c, VersionOf(s, second)))
  }

  lemma JustifiedLegal(s: Store, p: Policy, id: string, choice: Choice)
    requires id in s.candidates && Justified(s, p, s.candidates[id], choice)
    ensures Legal(s, Consolidate(p, id, choice))
  {
    hide RankOf, Matches, TooClose, Clear, Material;
  }

  /** Observing an active card's statement again: a card compared at all is matched with
      the full score, so the candidate goes to a card of full score, to this one if no
      other has it. It matches no card exactly when this one is not compared, because it
      shares no target with the candidate while others do, and none of those scores. */
  lemma RepeatMatchesExactly(s: Store, p: Policy, c: Candidate, id: CardId, choice: Choice)
    requires id in Rows(s, c) && p.norm(c.statement) == p.norm(VersionOf(s, id).statement)
    requires Justified(s, p, c, choice)
    ensures id in Compared(s, p, c) ==>
              && (choice.Same? || choice.Changed?) && choice.card in Matches(s, p, c)
              && RankOf(p, c, VersionOf(s, choice.card)).score == 1.0
              && (choice.card == id
                  || exists o :: o in Matches(s, p, c) && o != id && RankOf(p, c, VersionOf(s, o)).score == 1.0)
    ensures choice.NoMatch? <==>
            id !in Sharing(s, p, c) && Sharing(s, p, c) != {}
            && forall o :: o in Sharing(s, p, c) ==> !Scores(p, c, VersionOf(s, o))
  {
    hide TextScore, BindingScore, Minimum, Scores, RawScore;
    ReachesMinimum(p, c, VersionOf(s, id));
    if id in Compared(s, p, c) {
      assert id in Matches(s, p, c);
      forall best | Top(s, p, c, Matches(s, p, c), best) ensures RankOf(p, c, VersionOf(s, best)).score == 1.0 {
        assert AtLeast(RankOf(p, c, VersionOf(s, best)), RankOf(p, c, VersionOf(s, id)));
      }
    } else {
      if Matches(s, p, c) == {} {
        NothingMatches(s, p, c, choice);
      }
      assert forall o :: o in Sharing(s, p, c) && Scores(p, c, VersionOf(s, o)) ==> o in Matches(s, p, c);
    }
  }

  lemma ReachesMinimum(p: Policy, c: Candidate, v: Version)
    requires p.norm(c.statement) == p.norm(v.statement)
    ensures Scores(p, c, v) && RankOf(p, c, v).score == 1.0
  {
  }

  /** Names and targets taken as they are, one token to a text. */
  const VERBATIM := Policy("v", (t: string) => t, (t: string) => {t}, (b: Binding) => b.path)

  /** The two best matches are too close to tell apart. */
  ghost predicate Tied(s: Store, p: Policy, c: Candidate) {
    var all := Matches(s, p, c);
    exists best, second :: Top(s, p, c, all, best) && Top(s, p, c, all - {best}, second)
      && TooClose(RankOf(p, c, VersionOf(s, best)), RankOf(p, c, VersionOf(s, second)))
  }

  /** Ties are broken in any order, but whether there is no match, or a tie too close, is not
      left to the order. */
  lemma ChoiceKind(s: Store, p: Policy, c: Candidate, choice: Choice)
    requires Justified(s, p, c, choice)
    ensures choice.NoMatch? <==> Matches(s, p, c) == {}
    ensures choice.Ambiguous? <==> Tied(s, p, c)
  {
    hide RankOf, Matches;
    if Matches(s, p, c) == {} {
      NothingMatches(s, p, c, choice);
    }
    if choice.Same? || choice.Changed? {
      var all := Matches(s, p, c);
      forall best, second | Top(s, p, c, all, best) && Top(s, p, c, all - {best}, second)
        ensures !TooClose(RankOf(p, c, VersionOf(s, best)), RankOf(p, c, VersionOf(s, second)))
      {
        if choice.card != best {
          assert Top(s, p, c, all - {choice.card}, best);
        }
      }
    }
  }

  /** When observing an active card's statement again opens another card: exactly when that
      card is not compared, the sharing cards score too low or the two best of them lie too
      close, and the key of the candidate is free. */
  lemma RepeatOpensExactly(s: Store, p: Policy, c: Candidate, id: CardId, choice: Choice)
    requires id in Rows(s, c) && p.norm(c.statement) == p.norm(VersionOf(s, id).statement)
    requires Justified(s, p, c, choice)
    ensures var t := Act(s, p, c, choice);
            && (t.cards.Keys != s.cards.Keys <==>
                && id !in Compared(s, p, c)
                && ((forall o :: o in Sharing(s, p, c) ==> !Scores(p, c, VersionOf(s, o))) || Tied(s, p, c))
                && CardIdOf(p, c) !in s.cards)
            && (t.cards.Keys != s.cards.Keys ==> t.cards.Keys == s.cards.Keys + {CardIdOf(p, c)})
  {
    hide Justified, Tied, Scores, Matches, Demote, CardIdOf;
    RepeatMatchesExactly(s, p, c, id, choice);
    ChoiceKind(s, p, c, choice);
    assert (choice.Same? || choice.Changed?) ==> Active(s, choice.card, c) by { JustifiedActive(s, p, c, choice); }
    ActOpens(s, p, c, choice);
  }

  lemma JustifiedActive(s: Store, p: Policy, c: Candidate, choice: Choice)
    requires Justified(s, p, c, choice)
    ensures choice.Same? || choice.Changed? ==> Active(s, choice.card, c)
  {
    hide RankOf, Matches, TooClose, Clear, Material;
  }

  /** Only the two outcomes without a match insert a card, under the candidate's key. */
  lemma ActOpens(s: Store, p: Policy, c: Candidate, choice: Choice)
    requires choice.Same? || choice.Changed? ==> Active(s, choice.card, c)
    ensures Act(s, p, c, choice).cards.Keys ==
            s.cards.Keys + if choice.NoMatch? || choice.Ambiguous? then {CardIdOf(p, c)} else {}
  {
    hide CardIdOf, EvidenceOf, UniqueStrings, DistinctBindings, MergeBindings;
  }

  const TARGET := Binding("r", "f", "", "")

  function Seen(id: string, statement: string, bindings: seq<Binding>): Candidate {
    Candidate(id, "run", "p", "t", Convention, statement, [], bindings, ["e"], 1.0, "")
  }

  /** One event, three candidates of one extraction, and a card made of each of the first two. */
  const HISTORY := [AddEvent("e", Owner("p", "t")),
                    RecordSuccess("run", THREE),
                    Consolidate(VERBATIM, "1", NoMatch), Consolidate(VERBATIM, "2", NoMatch)]

  function SAME(): CardId { CardIdOf(VERBATIM, Seen("1", "x", [])) }

  function OTHER(): CardId { CardIdOf(VERBATIM, Seen("2", "y", [TARGET])) }

  lemma NoTarget()
    ensures Targets(VERBATIM, []) == {} && Targets(VERBATIM, [TARGET]) == {"f"}
    ensures DistinctBindings(VERBATIM, []) == [] && DistinctBindings(VERBATIM, [TARGET]) == [TARGET]
  {
    assert TARGET in [TARGET] && VERBATIM.target(TARGET) == "f";
    assert [TARGET][..0] == [];
  }

  /** A first observation makes its card. */
  lemma FirstCard(s: Store, p: Policy, id: string)
    requires id in s.candidates && CardIdOf(p, s.candidates[id]) !in s.cards
    requires DecisionKeyOf(p.version, s.candidates[id]) !in s.decisions
    ensures var c, t := s.candidates[id], Apply(s, Consolidate(p, id, NoMatch));
            && t == Decide(InsertCard(s, p, c, Proposed), DecisionKeyOf(p.version, c),
                           Decision(Create, Some(VersionId(CardIdOf(p, c), 1))))
  {
    hide CardIdOf, DecisionKeyOf;
  }

  lemma OneMore(s: Store, op: Op, rest: seq<Op>)
    requires Legal(s, op) && LegalRun(Apply(s, op), rest)
    ensures LegalRun(s, [op] + rest) && Exec(s, [op] + rest) == Exec(Apply(s, op), rest)
  {
    assert ([op] + rest)[1..] == rest;
  }

  const THREE := [Seen("1", "x", []), Seen("2", "y", [TARGET]), Seen("3", "x", [TARGET])]

  /** The store before any card: one event and three candidates. */
  function Extracted(): Store {
    EMPTY.(events := map["e" := Owner("p", "t")], candidates := map["1" := THREE[0], "2" := THREE[1], "3" := THREE[2]])
  }

  lemma Extraction()
    ensures var s := EMPTY.(events := map["e" := Owner("p", "t")]);
            && Apply(EMPTY, HISTORY[0]) == s && Legal(s, HISTORY[1]) && Apply(s, HISTORY[1]) == Extracted()
  {
    var s := EMPTY.(events := map["e" := Owner("p", "t")]);
    assert CandidatesOf(s, "run") == {};
    assert Remaining(s, "run") == map[];
    assert THREE[..2] == [THREE[0], THREE[1]] && THREE[..2][..1] == [THREE[0]] && THREE[..1][..0] == [];
    assert WithAll(map[], THREE[..1]) == map["1" := THREE[0]];
    assert WithAll(map[], THREE[..2]) == WithAll(map[], THREE[..1])["2" := THREE[1]];
    assert WithAll(map[], THREE) == WithAll(map[], THREE[..2])["3" := THREE[2]];
  }

  function OneCard(): Store
  {
    Decide(InsertCard(Extracted(), VERBATIM, THREE[0], Proposed), DecisionKeyOf("v", THREE[0]),
           Decision(Create, Some(VersionId(SAME(), 1))))
  }

  function TwoCards(): Store
  {
    Decide(InsertCard(OneCard(), VERBATIM, THREE[1], Proposed), DecisionKeyOf("v", THREE[1]),
           Decision(Create, Some(VersionId(OTHER(), 1))))
  }

  lemma KeysDiffer()
    ensures SAME() != OTHER() && CardIdOf(VERBATIM, THREE[2]) !in {SAME(), OTHER()}
    ensures DecisionKeyOf("v", THREE[0]) != DecisionKeyOf("v", THREE[1])
  {
    NoTarget();
  }

  /** The first two candidates match nothing, so the matcher makes a card of each. */
  lemma TwoCreated()
    ensures LegalRun(EMPTY, HISTORY) && Exec(EMPTY, HISTORY) == TwoCards()
    ensures Justified(Extracted(), VERBATIM, THREE[0], NoMatch) && Justified(OneCard(), VERBATIM, THREE[1], NoMatch)
  {
    hide LegalRun, Exec, CardIdOf, DecisionKeyOf, InsertCard;
    var start := EMPTY.(events := map["e" := Owner("p", "t")]);
    Extraction();
    KeysDiffer();
    SmallStores();
    FirstCard(Extracted(), VERBATIM, "1");
    FirstCard(OneCard(), VERBATIM, "2");
    NothingYet(TwoCards());
    OneMore(OneCard(), HISTORY[3], []);
    OneMore(Extracted(), HISTORY[2], [HISTORY[3]] + []);
    OneMore(start, HISTORY[1], [HISTORY[2]] + ([HISTORY[3]] + []));
    OneMore(EMPTY, HISTORY[0], [HISTORY[1]] + ([HISTORY[2]] + ([HISTORY[3]] + [])));
    assert HISTORY == [HISTORY[0]] + ([HISTORY[1]] + ([HISTORY[2]] + ([HISTORY[3]] + [])));
    NothingToMatch(Extracted(), THREE[0]);
    FirstAlone();
  }

  lemma NothingYet(s: Store)
    ensures LegalRun(s, []) && Exec(s, []) == s
  {
  }

  lemma SmallStores()
    ensures Extracted().cards == map[] && Extracted().decisions == map[] && Extracted().versions == map[]
    ensures var s := OneCard();
            && s.cards.Keys == {SAME()} && s.candidates == Extracted().candidates
            && s.decisions.Keys == {DecisionKeyOf("v", THREE[0])}
            && s.cards[SAME()].current == 1 && s.cards[SAME()].status.Proposed?
            && s.cards[SAME()].project == "p" && s.cards[SAME()].kind.Convention?
            && VersionId(SAME(), 1) in s.versions && s.versions[VersionId(SAME(), 1)].statement == "x"
            && s.versions[VersionId(SAME(), 1)].aliases == [] && s.versions[VersionId(SAME(), 1)].bindings == []
    ensures var s := TwoCards();
            && s.cards.Keys == {SAME(), OTHER()} && s.cards[SAME()] == OneCard().cards[SAME()]
            && s.cards[OTHER()].current == 1 && s.cards[OTHER()].status.Proposed?
            && s.cards[OTHER()].project == "p" && s.cards[OTHER()].kind.Convention?
            && VersionId(SAME(), 1) in s.versions
            && s.versions[VersionId(SAME(), 1)] == OneCard().versions[VersionId(SAME(), 1)]
            && VersionId(OTHER(), 1) in s.versions && s.versions[VersionId(OTHER(), 1)].statement == "y"
            && s.versions[VersionId(OTHER(), 1)].aliases == [] && s.versions[VersionId(OTHER(), 1)].bindings == [TARGET]
  {
    hide CardIdOf, DecisionKeyOf, EvidenceOf;
    NoTarget();
    KeysDiffer();
  }

  lemma NothingToMatch(s: Store, c: Candidate)
    requires s.cards == map[]
    ensures Justified(s, VERBATIM, c, NoMatch)
  {
    assert Matches(s, VERBATIM, c) == {};
  }

  lemma FirstAlone()
    ensures Justified(OneCard(), VERBATIM, THREE[1], NoMatch)
  {
    hide CardIdOf, DecisionKeyOf, InsertCard, Decide;
    var s, c := OneCard(), THREE[1];
    SmallStores();
    NoTarget();
    assert !Scores(VERBATIM, c, VersionOf(s, SAME())) by { NoCommonToken(c, VersionOf(s, SAME())); }
    assert Matches(s, VERBATIM, c) == {};
  }

  lemma NoCommonToken(c: Candidate, v: Version)
    requires c.aliases == [] && v.aliases == [] && c.statement != v.statement
    requires Targets(VERBATIM, v.bindings) == {}
    ensures !Scores(VERBATIM, c, v)
  {
    assert {c.statement} * {v.statement} == {};
  }

  /** The candidate repeats the statement of an active card, and every choice the matcher may
      make of it opens another card. */
  ghost predicate OpensAnother(s: Store, p: Policy, id: string, same: CardId) {
    && id in s.candidates
    && var c := s.candidates[id];
       && same in Rows(s, c) && VersionOf(s, same).statement == c.statement && CardIdOf(p, c) !in s.cards
       && (forall choice :: Justified(s, p, c, choice) <==> choice.NoMatch?)
       && Apply(s, Consolidate(p, id, NoMatch)).cards.Keys == s.cards.Keys + {CardIdOf(p, c)}
  }

  /** A run after which two active cards exist, one of the third candidate's statement and
      one of its target. The candidate matches neither and its key is free. */
  lemma RepeatOpensCard()
    ensures LegalRun(EMPTY, HISTORY) && Inv(Exec(EMPTY, HISTORY))
    ensures OpensAnother(Exec(EMPTY, HISTORY), VERBATIM, "3", SAME())
  {
    hide LegalRun, Exec, CardIdOf, DecisionKeyOf, InsertCard, Decide, Justified, Inv, Apply, TwoCards, OneCard, Scores;
    var s, p, c := TwoCards(), VERBATIM, THREE[2];
    TwoCreated();
    EmptyInv();
    RunInv(EMPTY, HISTORY);
    SmallStores();
    KeysDiffer();
    NoTarget();
    assert Targets(p, c.bindings) * Targets(p, VersionOf(s, OTHER()).bindings) == {"f"};
    assert "f" in Targets(p, c.bindings) * Targets(p, VersionOf(s, OTHER()).bindings);
    assert Sharing(s, p, c) == {OTHER()};
    LowScore(p, c, VersionOf(s, OTHER()));
    assert Matches(s, p, c) == {};
    forall choice ensures Justified(s, p, c, choice) <==> choice.NoMatch? {
      NothingMatches(s, p, c, choice);
    }
    OpensThird();
  }

  lemma Undecided()
    ensures TwoCards().candidates == Extracted().candidates && DecisionKeyOf("v", THREE[2]) !in TwoCards().decisions
    ensures InsertCard(TwoCards(), VERBATIM, THREE[2], Proposed).cards.Keys ==
            TwoCards().cards.Keys + {CardIdOf(VERBATIM, THREE[2])}
  {
    hide CardIdOf, EvidenceOf;
  }

  lemma OpensThird()
    ensures "3" in TwoCards().candidates && TwoCards().candidates["3"] == THREE[2]
    ensures Apply(TwoCards(), Consolidate(VERBATIM, "3", NoMatch)).cards.Keys ==
            TwoCards().cards.Keys + {CardIdOf(VERBATIM, THREE[2])}
  {
    hide CardIdOf, InsertCard, EvidenceOf;
    var s := TwoCards();
    SmallStores();
    KeysDiffer();
    Undecided();
    FirstCard(s, VERBATIM, "3");
  }

  lemma LowScore(p: Policy, c: Candidate, v: Version)
    requires p == VERBATIM && c.aliases == [] && v.aliases == [] && c.statement != v.statement
    requires Targets(p, c.bindings) == Targets(p, v.bindings) != {}
    ensures !Scores(p, c, v)
  {
    assert {c.statement} * {v.statement} == {};
    assert Targets(p, c.bindings) * Targets(p, v.bindings) == Targets(p, c.bindings) + Targets(p, v.bindings);
  }

  lemma NothingMatches(s: Store, p: Policy, c: Candidate, choice: Choice)
    requires Matches(s, p, c) == {}
    ensures Justified(s, p, c, choice) <==> choice.NoMatch?
  {
  }

  /******* The tables in place *******/

  datatype Item = Item(candidate: string, outcome: Outcome, version: Option<VersionId>)

  datatype Outcome = Wrote(action: Action) | Skipped

  datatype TransitionResult = Updated | NotFound | AlreadyInState | Refused

  /** A transition the table permits from the card's present status. */
  predicate Moves(cards: map<CardId, Card>, id: CardId, to: Status) {
    id in cards && cards[id].status != to && Permitted(cards[id].status, to)
  }

  class CardStore {
    var events: map<string, Owner>
    var candidates: map<string, Candidate>
    var cards: map<CardId, Card>
    var versions: map<VersionId, Version>
    var evidence: set<Evidence>
    var decisions: map<DecisionKey, Decision>
    var log: seq<LogRow>

    ghost function State(): Store
      reads this
    {
      Store(events, candidates, cards, versions, evidence, decisions, log)
    }

    ghost predicate Valid()
      reads this
    {
      Inv(State())
    }

    constructor ()
      ensures Valid() && State() == EMPTY
    {
      events, candidates, cards, versions, evidence, decisions, log := map[], map[], map[], map[], {}, map[], [];
      new;
      EmptyInv();
      assert State() == EMPTY;
    }

    /** INSERT OR IGNORE, one row per distinct event. */
    method AddEvidence(v: VersionId, c: Candidate)
      modifies `evidence
      ensures evidence == old(evidence) + EvidenceOf(v, c)
    {
      var i := 0;
      while i < |c.evidence|
        invariant i <= |c.evidence|
        invariant evidence == old(evidence) + set e | e in c.evidence[..i] :: Evidence(v, c.id, e)
      {
        assert c.evidence[..i + 1] == c.evidence[..i] + [c.evidence[i]];
        evidence := evidence + {Evidence(v, c.id, c.evidence[i])};
        i := i + 1;
      }
      assert c.evidence[..i] == c.evidence;
    }

    /** `_create_card`: insert, or fall back to the card that holds the key. */
    method CreateCard(p: Policy, c: Candidate, status: Status) returns (id: CardId)
      modifies `cards, `versions, `evidence
      ensures id == CardIdOf(p, c) && State() == Memory.CreateCard(old(State()), p, c, status)
    {
      id := CardIdOf(p, c);
      if id in cards {
        return;
      }
      var v := VersionId(id, 1);
      cards := cards[id := Card(c.project, c.task, c.kind, id.key, status, Clamp(c.confidence), 1)];
      versions := versions[v := Version(c.statement, UniqueStrings(c.aliases), Clamp(c.confidence), c.uncertainty,
                                        c.id, true, None, DistinctBindings(p, c.bindings))];
      AddEvidence(v, c);
    }

    method MergeEvidence(c: Candidate, id: CardId)
      requires id in cards
      modifies `cards, `evidence
      ensures State() == MergeInto(old(State()), c, id)
    {
      AddEvidence(VersionId(id, cards[id].current), c);
      cards := cards[id := cards[id].(confidence := MaxReal(cards[id].confidence, c.confidence))];
    }

    /** Insert the next version, close the superseded one, move the pointer. */
    method AppendVersion(p: Policy, c: Candidate, id: CardId)
      requires id in cards && VersionId(id, cards[id].current) in versions
      modifies `cards, `versions, `evidence
      ensures State() == Memory.AppendVersion(old(State()), p, c, id)
    {
      var card := cards[id];
      var was := VersionId(id, card.current);
      var last := versions[was];
      var v := VersionId(id, card.current + 1);
      versions := versions[v := Version(c.statement, UniqueStrings(last.aliases + c.aliases),
                                        Clamp(MaxReal(card.confidence, c.confidence)), c.uncertainty, c.id, true,
                                        Some(card.current), MergeBindings(p, last.bindings, c.bindings))];
      versions := versions[was := last.(open := false)];
      AddEvidence(v, c);
      cards := cards[id := card.(current := card.current + 1,
                                 confidence := MaxReal(card.confidence, c.confidence))];
    }

    method DemoteEstablished(id: CardId)
      requires id in cards
      modifies `cards, `log
      ensures State() == Demote(old(State()), id)
    {
      var was := cards[id].status;
      if Established(was) {
        cards := cards[id := cards[id].(status := Uncertain)];
        log := log + [LogRow(id, was, Uncertain, false)];
      }
    }

    /** Moves a card along the transition table, or says why it does not. */
    method Transition(id: CardId, to: Status, reason: string) returns (r: TransitionResult)
      requires Valid()
      modifies `cards, `log
      ensures Valid()
      ensures State() == if reason == "" then old(State()) else Apply(old(State()), Op.Transition(id, to))
      ensures r.Updated? <==> reason != "" && Moves(old(cards), id, to)
      ensures !r.Updated? ==> State() == old(State())
    {
      hide Inv;
      ApplyInv(State(), Op.Transition(id, to));
      if reason == "" {
        return Refused;
      }
      if id !in cards {
        return NotFound;
      }
      var was := cards[id].status;
      if was == to {
        return AlreadyInState;
      }
      if !Permitted(was, to) {
        return Refused;
      }
      cards := cards[id := cards[id].(status := to)];
      log := log + [LogRow(id, was, to, true)];
      return Updated;
    }

    method ValidateEvidence(c: Candidate) returns (ok: bool)
      ensures ok == Grounded(events, c)
    {
      ok := c.evidence != [];
      var i := 0;
      while i < |c.evidence|
        invariant i <= |c.evidence|
        invariant ok <==> c.evidence != [] &&
                          forall e :: e in c.evidence[..i] ==> e in events && events[e] == Owner(c.project, c.task)
      {
        assert c.evidence[..i + 1] == c.evidence[..i] + [c.evidence[i]];
        if c.evidence[i] !in events || events[c.evidence[i]] != Owner(c.project, c.task) {
          ok := false;
        }
        i := i + 1;
      }
      assert c.evidence[..i] == c.evidence;
    }

    method BestOf(p: Policy, c: Candidate, ids: set<CardId>) returns (best: CardId)
      requires ids != {} && ids <= Rows(State(), c)
      ensures Top(State(), p, c, ids, best)
    {
      hide RankOf;
      best :| best in ids;
      AtLeastSelf(RankOf(p, c, versions[VersionId(best, cards[best].current)]));
      var rest := ids - {best};
      while rest != {}
        invariant rest <= ids && best in ids
        invariant forall id :: id in ids && id !in rest ==>
                    AtLeast(RankOf(p, c, VersionOf(State(), best)), RankOf(p, c, VersionOf(State(), id)))
        decreases rest
      {
        var next :| next in rest;
        var a := RankOf(p, c, versions[VersionId(best, cards[best].current)]);
        var b := RankOf(p, c, versions[VersionId(next, cards[next].current)]);
        AtLeastTotal(a, b);
        if !AtLeast(a, b) {
          forall id | id in ids && id !in rest
            ensures AtLeast(b, RankOf(p, c, VersionOf(State(), id)))
          {
            AtLeastTransitive(b, a, RankOf(p, c, VersionOf(State(), id)));
          }
          AtLeastSelf(b);
          best := next;
        }
        rest := rest - {next};
      }
    }

    /** The matches and the decision they lead to. */
    method Decide(p: Policy, c: Candidate) returns (choice: Choice)
      ensures Justified(State(), p, c, choice)
    {
      hide RankOf, TooClose, Material, Scores;
      var rows := set id | id in cards && VersionId(id, cards[id].current) in versions
                           && cards[id].project == c.project && cards[id].kind == c.kind
                           && !cards[id].status.Rejected? && !cards[id].status.Superseded?;
      assert rows == Rows(State(), c);
      var mine := Targets(p, c.bindings);
      var sharing := set id | id in rows
        && mine * Targets(p, versions[VersionId(id, cards[id].current)].bindings) != {};
      assert sharing == Sharing(State(), p, c);
      var compared := if sharing != {} then sharing else rows;
      var all := set id | id in compared && Scores(p, c, versions[VersionId(id, cards[id].current)]);
      assert all == Matches(State(), p, c);
      if all == {} {
        return NoMatch;
      }
      var best := BestOf(p, c, all);
      var current := versions[VersionId(best, cards[best].current)];
      if all != {best} {
        var second := BestOf(p, c, all - {best});
        var runner := versions[VersionId(second, cards[second].current)];
        if TooClose(RankOf(p, c, current), RankOf(p, c, runner)) {
          return Ambiguous;
        }
        forall other | Top(State(), p, c, all - {best}, other)
          ensures !TooClose(RankOf(p, c, current), RankOf(p, c, VersionOf(State(), other)))
        {
          SameScore(RankOf(p, c, runner), RankOf(p, c, VersionOf(State(), other)), RankOf(p, c, current));
        }
      }
      assert Clear(State(), p, c, best);
      return if Material(p, c, current) then Changed(best) else Same(best);
    }

    /** One candidate: skipped if this policy already decided it, otherwise written
        as the matcher decides and recorded. With closed evidence it never raises. */
    method ConsolidateOne(p: Policy, id: string) returns (item: Item, ghost choice: Choice)
      requires Valid() && id in candidates
      modifies this
      ensures Valid()
      ensures item.outcome.Wrote? ==> Justified(old(State()), p, old(candidates)[id], choice)
      ensures Legal(old(State()), Consolidate(p, id, choice))
              && State() == Apply(old(State()), Consolidate(p, id, choice))
      ensures item.candidate == id
      ensures item.outcome.Skipped? <==> DecidedUnder(old(State()), p.version, id)
      ensures DecidedUnder(State(), p.version, id)
              && item.version == decisions[DecisionKeyOf(p.version, candidates[id])].version
      ensures item.outcome.Wrote? ==> item.outcome.action == decisions[DecisionKeyOf(p.version, candidates[id])].action
    {
      hide Inv, Justified, Memory.CreateCard, MergeInto, Memory.AppendVersion, Demote, DecisionKeyOf, CardIdOf,
        Grounded;
      ghost var s := State();
      var c := candidates[id];
      var key := DecisionKeyOf(p.version, c);
      if key in decisions {
        choice := NoMatch;
        ApplyInv(s, Consolidate(p, id, choice));
        return Item(id, Skipped, decisions[key].version), choice;
      }
      var ok := ValidateEvidence(c);
      assert ok by { AllGrounded(s, id); }
      var verdict := Decide(p, c);
      choice := verdict;
      JustifiedLegal(s, p, id, choice);
      ApplyInv(s, Consolidate(p, id, choice));
      var card, action;
      match verdict {
        case NoMatch =>
          card := CreateCard(p, c, Proposed);
          action := Action.Create;
        case Ambiguous =>
          card := CreateCard(p, c, Uncertain);
          action := MarkUncertain;
        case Same(best) =>
          MergeEvidence(c, best);
          card, action := best, Merge;
        case Changed(best) =>
          AppendVersion(p, c, best);
          AppendKeeps(s, p, c, best);
          DemoteEstablished(best);
          card, action := best, NewVersion;
      }
      var version := WriteDecision(s, p, c, choice, card, action, key);
      item := Item(id, Wrote(action), Some(version));
    }

    method WriteDecision(ghost s: Store, p: Policy, c: Candidate, ghost choice: Choice, card: CardId, action: Action,
                         key: DecisionKey)
      returns (version: VersionId)
      requires key == DecisionKeyOf(p.version, c)
      requires choice.Same? || choice.Changed? ==> Active(s, choice.card, c)
      requires match choice
               case NoMatch => State() == Memory.CreateCard(s, p, c, Proposed) && card == CardIdOf(p, c)
                               && action == Action.Create
               case Ambiguous =>
                 State() == Memory.CreateCard(s, p, c, Uncertain) && card == CardIdOf(p, c) && action == MarkUncertain
               case Same(best) => State() == MergeInto(s, c, best) && card == best && action == Merge
               case Changed(best) =>
                 best in Memory.AppendVersion(s, p, c, best).cards
                 && State() == Demote(Memory.AppendVersion(s, p, c, best), best) && card == best && action == NewVersion
      modifies `decisions
      ensures State() == Act(s, p, c, choice)
      ensures key in decisions && decisions[key] == Decision(action, Some(version))
    {
      hide Memory.AppendVersion, Demote, DecisionKeyOf;
      if choice.NoMatch? {
        CreateKeeps(s, p, c, Proposed);
      } else if choice.Ambiguous? {
        CreateKeeps(s, p, c, Uncertain);
      } else if choice.Same? {
        MergeKeeps(s, c, card);
      } else {
        AppendKeeps(s, p, c, card);
      }
      hide Memory.CreateCard, MergeInto, CardIdOf;
      version := VersionId(card, cards[card].current);
      decisions := decisions[key := Decision(action, Some(version))];
    }

    /** The quality gate's rejection, recorded once. */
    method RecordQuarantined(p: Policy, id: string) returns (item: Item)
      requires Valid() && id in candidates
      modifies `decisions
      ensures Valid() && State() == Apply(old(State()), Quarantine(p, id))
      ensures item.candidate == id && DecidedUnder(State(), p.version, id)
      ensures item.outcome == if DecidedUnder(old(State()), p.version, id) then Skipped else Wrote(Reject)
    {
      hide Inv, DecisionKeyOf;
      ApplyInv(State(), Quarantine(p, id));
      var key := DecisionKeyOf(p.version, candidates[id]);
      if key in decisions {
        return Item(id, Skipped, decisions[key].version);
      }
      decisions := decisions[key := Decision(Reject, None)];
      return Item(id, Wrote(Reject), None);
    }

    /** One pass over listed candidates, the quality gate answering anything. After
        it each is decided; if each was decided before, nothing changed and every
        item is a skip. */
    method ConsolidateAll(p: Policy, ids: seq<string>) returns (items: seq<Item>)
      requires Valid() && forall id :: id in ids ==> id in candidates
      modifies this
      ensures Valid() && candidates == old(candidates)
      ensures |items| == |ids| && forall i :: 0 <= i < |ids| ==> items[i].candidate == ids[i]
      ensures forall id :: id in ids ==> DecidedUnder(State(), p.version, id)
      ensures (forall id :: id in ids ==> DecidedUnder(old(State()), p.version, id)) ==>
                State() == old(State()) && forall i :: 0 <= i < |items| ==> items[i].outcome.Skipped?
    {
      hide Inv, DecidedUnder, Justified, Legal, Apply;
      items := [];
      ghost var start := State();
      ghost var again := forall id :: id in ids ==> DecidedUnder(start, p.version, id);
      var i := 0;
      while i < |ids|
        invariant i <= |ids| && Valid() && candidates == start.candidates
        invariant |items| == i && forall k :: 0 <= k < i ==> items[k].candidate == ids[k]
        invariant forall k :: 0 <= k < i ==> DecidedUnder(State(), p.version, ids[k])
        invariant again ==> State() == start && forall k :: 0 <= k < i ==> items[k].outcome.Skipped?
      {
        ghost var before := State();
        var quarantined: bool := *;
        var item;
        if quarantined {
          item := RecordQuarantined(p, ids[i]);
          QuarantineEffect(before, p, ids[i]);
        } else {
          ghost var choice;
          item, choice := ConsolidateOne(p, ids[i]);
          ConsolidateEffect(before, p, ids[i], choice);
        }
        items := items + [item];
        i := i + 1;
      }
    }
  }

  lemma AllGrounded(s: Store, id: string)
    requires Inv(s) && id in s.candidates
    ensures Grounded(s.events, s.candidates[id])
  {
  }

  lemma QuarantineEffect(s: Store, p: Policy, id: string)
    requires Inv(s) && id in s.candidates
    ensures var t := Apply(s, Quarantine(p, id));
            t.candidates == s.candidates
            && (forall other :: DecidedUnder(s, p.version, other) ==> DecidedUnder(t, p.version, other))
            && (DecidedUnder(s, p.version, id) ==> t == s)
  {
    hide Inv, DecisionKeyOf;
  }

  lemma ConsolidateEffect(s: Store, p: Policy, id: string, choice: Choice)
    requires Inv(s) && Legal(s, Consolidate(p, id, choice))
    ensures var t := Apply(s, Consolidate(p, id, choice));
            t.candidates == s.candidates
            && (forall other :: DecidedUnder(s, p.version, other) ==> DecidedUnder(t, p.version, other))
            && (DecidedUnder(s, p.version, id) ==> t == s)
  {
    hide Inv, DecisionKeyOf, Act, Active;
    if DecisionKeyOf(p.version, s.candidates[id]) !in s.decisions {
      ActDecides(s, p, s.candidates[id], choice);
    }
  }

  lemma AtLeastSelf(a: Rank)
    ensures AtLeast(a, a)
  {
  }

  lemma AtLeastTotal(a: Rank, b: Rank)
    ensures AtLeast(a, b) || AtLeast(b, a)
  {
  }

  lemma AtLeastTransitive(a: Rank, b: Rank, c: Rank)
    requires AtLeast(a, b) && AtLeast(b, c)
    ensures AtLeast(a, c)
  {
  }

  /** Two maxima have the same score, so the ambiguity test does not depend on ties. */
  lemma SameScore(a: Rank, b: Rank, best: Rank)
    requires AtLeast(a, b) && AtLeast(b, a) && !TooClose(best, a)
    ensures !TooClose(best, b)
  {
  }
}
