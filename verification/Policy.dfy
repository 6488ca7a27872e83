/** What the consolidation policy comes to in tokens and targets, and what it writes
    (src/codememory/consolidation/service.py:60-118, 338-546). */
module PolicyTheorems {
  import opened Base
  import opened Memory
  import opened MemoryTheorems
  import opened Consolidation

  /******* Texts, targets and keys *******/

  /** Words with a blank between them. */
  function Spelled(words: seq<string>): string {
    if words == [] then "" else if |words| == 1 then words[0] else words[0] + " " + Spelled(words[1..])
  }

  lemma {:induction false} SpelledMore(words: seq<string>, last: string)
    requires words != []
    ensures Spelled(words + [last]) == Spelled(words) + " " + last
  {
    if |words| > 1 {
      SpelledMore(words[1..], last);
      assert (words + [last])[1..] == words[1..] + [last];
    } else {
      assert (words + [last])[1..] == [last];
    }
  }

  /** The text of an observation is its statement and its aliases. */
  lemma {:induction false} TextOf(statement: string, aliases: seq<string>)
    ensures Joined(statement, aliases) == Spelled([statement] + aliases)
    decreases |aliases|
  {
    if aliases != [] {
      var n := |aliases| - 1;
      TextOf(statement, aliases[..n]);
      SpelledMore([statement] + aliases[..n], aliases[n]);
      assert [statement] + aliases == ([statement] + aliases[..n]) + [aliases[n]];
    } else {
      assert [statement] + aliases == [statement];
    }
  }

  lemma TargetsExactly(p: Policy, bindings: seq<Binding>, t: string)
    ensures t in Targets(p, bindings) <==> t != "" && exists j :: 0 <= j < |bindings| && p.target(bindings[j]) == t
  {
    if b :| b in bindings && p.target(b) == t && t != "" {
      var j :| 0 <= j < |bindings| && bindings[j] == b;
    }
    if j :| 0 <= j < |bindings| && p.target(bindings[j]) == t && t != "" {
      assert bindings[j] in bindings;
    }
  }

  /** Two observations share a card id exactly when project, type, normalised statement and the
      sets of targets agree. */
  lemma CardKeyExactly(p: Policy, c: Candidate, d: Candidate)
    ensures CardIdOf(p, c) == CardIdOf(p, d) <==>
            && c.project == d.project && c.kind == d.kind && p.norm(c.statement) == p.norm(d.statement)
            && Targets(p, c.bindings) == Targets(p, d.bindings)
  {
  }

  /** A decision is looked up again exactly for the same candidate with the same content. */
  lemma DecisionKeyExactly(v: string, c: Candidate, w: string, d: Candidate)
    ensures DecisionKeyOf(v, c) == DecisionKeyOf(w, d) <==>
            && v == w && c.id == d.id && c.project == d.project && c.task == d.task && c.kind == d.kind
            && c.statement == d.statement && c.aliases == d.aliases && c.bindings == d.bindings
            && c.evidence == d.evidence
  {
    var x, y := DecisionKeyOf(v, c).content, DecisionKeyOf(w, d).content;
    assert DecisionKeyOf(v, c) == DecisionKeyOf(w, d) ==> x.statement == y.statement && x.aliases == y.aliases;
  }

  /** `r[j]` first occurs at `i`, behind exactly the values listed before it. */
  ghost predicate FirstAt(values: seq<string>, r: seq<string>, j: nat, i: nat) {
    && i < |values| && j < |r| && values[i] == r[j] && r[j] !in values[..i]
    && forall v :: v in r[..j] <==> v in values[..i] && v != ""
  }

  /** `r` holds the values that are not blank, each once, in the order they first occur. */
  ghost predicate FirstValues(values: seq<string>, r: seq<string>) {
    && (forall v :: v in r <==> v in values && v != "")
    && (forall j: nat :: j < |r| ==> Occurs(values, r, j))
  }

  ghost predicate Occurs(values: seq<string>, r: seq<string>, j: nat) { exists i: nat :: FirstAt(values, r, j, i) }

  lemma {:induction false} UniqueStringsExact(values: seq<string>)
    ensures FirstValues(values, UniqueStrings(values))
    decreases |values|
  {
    hide FirstValues;
    if values == [] {
      assert FirstValues([], []) by { NoValues(); }
    } else {
      var n := |values| - 1;
      UniqueStringsExact(values[..n]);
      FirstValuesMore(values[..n], values[n], UniqueStrings(values[..n]));
      assert values == values[..n] + [values[n]];
    }
  }

  lemma NoValues()
    ensures FirstValues([], [])
  {
  }

  lemma FirstValuesMore(values: seq<string>, last: string, r: seq<string>)
    requires FirstValues(values, r)
    ensures FirstValues(values + [last], if last == "" || last in r then r else r + [last])
  {
    hide FirstAt;
    var all, more := values + [last], if last == "" || last in r then r else r + [last];
    forall j: nat | j < |more| ensures Occurs(all, more, j) {
      if j < |r| {
        assert Occurs(values, r, j);
        var i: nat :| FirstAt(values, r, j, i);
        FirstAtKept(values, last, r, more, j, i);
      } else {
        assert FirstAt(all, more, j, |values|) by { LastIsFirst(values, last, r); }
      }
    }
  }

  lemma FirstAtKept(values: seq<string>, last: string, r: seq<string>, more: seq<string>, j: nat, i: nat)
    requires FirstAt(values, r, j, i) && |r| <= |more| && more[..|r|] == r
    ensures FirstAt(values + [last], more, j, i)
  {
    assert (values + [last])[..i] == values[..i] && more[..j] == r[..j];
    assert more[j] == r[j];
  }

  lemma LastIsFirst(values: seq<string>, last: string, r: seq<string>)
    requires last != "" && last !in r && forall v :: v in r <==> v in values && v != ""
    ensures FirstAt(values + [last], r + [last], |r|, |values|)
  {
    assert (values + [last])[..|values|] == values && (r + [last])[..|r|] == r;
  }

  predicate SameTarget(p: Policy, a: Binding, b: Binding) { a.role == b.role && p.target(a) == p.target(b) }

  /** `bindings[k]` is the first with its role and target. */
  predicate LeadsTarget(p: Policy, bindings: seq<Binding>, k: nat)
    requires k < |bindings|
  {
    forall m :: 0 <= m < k ==> !SameTarget(p, bindings[m], bindings[k])
  }

  /** Of the first `n` bindings those that have a target and lead it, in order. */
  function Leaders(p: Policy, bindings: seq<Binding>, n: nat): seq<Binding>
    requires n <= |bindings|
  {
    if n == 0 then []
    else
      Leaders(p, bindings, n - 1)
      + if p.target(bindings[n - 1]) != "" && LeadsTarget(p, bindings, n - 1) then [bindings[n - 1]] else []
  }

  /** Every binding with a target is represented, and nothing is made up. */
  ghost predicate Represents(p: Policy, bindings: seq<Binding>, r: seq<Binding>) {
    && (forall b :: b in r ==> b in bindings && p.target(b) != "")
    && (forall b :: b in bindings && p.target(b) != "" ==> exists o :: o in r && SameTarget(p, o, b))
  }

  lemma {:induction false} Represented(p: Policy, bindings: seq<Binding>)
    ensures Represents(p, bindings, DistinctBindings(p, bindings))
    decreases |bindings|
  {
    hide Represents;
    if bindings == [] {
      assert Represents(p, [], []) by { NoneRepresented(p); }
    } else {
      var n := |bindings| - 1;
      Represented(p, bindings[..n]);
      var last, before := bindings[n], DistinctBindings(p, bindings[..n]);
      if p.target(last) == "" {
        RepresentsSkipped(p, bindings[..n], last, before);
      } else if b :| b in before && b.role == last.role && p.target(b) == p.target(last) {
        assert SameTarget(p, b, last);
        RepresentsSkipped(p, bindings[..n], last, before);
      } else {
        RepresentsAdded(p, bindings[..n], last, before);
      }
      assert bindings == bindings[..n] + [bindings[n]];
    }
  }

  lemma NoneRepresented(p: Policy)
    ensures Represents(p, [], [])
  {
  }

  lemma RepresentsSkipped(p: Policy, bindings: seq<Binding>, last: Binding, r: seq<Binding>)
    requires Represents(p, bindings, r) && (p.target(last) == "" || exists o :: o in r && SameTarget(p, o, last))
    ensures Represents(p, bindings + [last], r)
  {
    hide SameTarget;
  }

  lemma RepresentsAdded(p: Policy, bindings: seq<Binding>, last: Binding, r: seq<Binding>)
    requires Represents(p, bindings, r) && p.target(last) != ""
    ensures Represents(p, bindings + [last], r + [last])
  {
    hide SameTarget;
    SameSelf(p, last);
    var all, more := bindings + [last], r + [last];
    assert forall b :: b in all <==> b in bindings || b == last;
    assert forall o :: o in more <==> o in r || o == last;
    forall b | b in bindings && p.target(b) != "" ensures exists o :: o in more && SameTarget(p, o, b) {
      var o :| o in r && SameTarget(p, o, b);
      assert o in more;
    }
    assert last in more;
  }

  lemma SameSelf(p: Policy, a: Binding)
    ensures SameTarget(p, a, a)
  {
  }

  lemma LeadersPrefix(p: Policy, bindings: seq<Binding>, n: nat, k: nat)
    requires k <= n <= |bindings|
    ensures Leaders(p, bindings[..n], k) == Leaders(p, bindings, k)
  {
    if k > 0 {
      LeadersPrefix(p, bindings, n, k - 1);
    }
  }

  /** The bindings a version keeps are the first of every role and target, in order. */
  lemma {:induction false} DistinctBindingsExact(p: Policy, bindings: seq<Binding>)
    ensures DistinctBindings(p, bindings) == Leaders(p, bindings, |bindings|)
    decreases |bindings|
  {
    hide LeadsTarget;
    if bindings != [] {
      var n := |bindings| - 1;
      DistinctBindingsExact(p, bindings[..n]);
      LeadersPrefix(p, bindings, n, n);
      var last, before := bindings[n], DistinctBindings(p, bindings[..n]);
      if p.target(last) != "" {
        if LeadsTarget(p, bindings, n) {
          forall b | b in before ensures !SameTarget(p, b, last) {
            LeaderIsNew(p, bindings, n, b);
          }
        } else {
          var m := NotLeading(p, bindings, n);
          var b := TakenBy(p, bindings, n, m);
        }
      }
    }
  }

  lemma LeaderIsNew(p: Policy, bindings: seq<Binding>, n: nat, b: Binding)
    requires n < |bindings| && LeadsTarget(p, bindings, n) && b in DistinctBindings(p, bindings[..n])
    ensures !SameTarget(p, b, bindings[n])
  {
    hide DistinctBindings;
    Represented(p, bindings[..n]);
    var m :| 0 <= m < n && bindings[..n][m] == b;
    assert bindings[m] == b;
  }

  lemma TakenBy(p: Policy, bindings: seq<Binding>, n: nat, m: nat) returns (b: Binding)
    requires m < n < |bindings| && SameTarget(p, bindings[m], bindings[n]) && p.target(bindings[n]) != ""
    ensures b in DistinctBindings(p, bindings[..n]) && SameTarget(p, b, bindings[n])
  {
    hide DistinctBindings;
    Represented(p, bindings[..n]);
    assert bindings[..n][m] == bindings[m] && bindings[m] in bindings[..n];
    b :| b in DistinctBindings(p, bindings[..n]) && SameTarget(p, b, bindings[m]);
  }

  lemma NotLeading(p: Policy, bindings: seq<Binding>, n: nat) returns (m: nat)
    requires n < |bindings| && !LeadsTarget(p, bindings, n)
    ensures m < n && SameTarget(p, bindings[m], bindings[n])
  {
    m :| 0 <= m < n && SameTarget(p, bindings[m], bindings[n]);
  }

  /******* Scores *******/

  /** The shared part of two sets, not both empty. */
  function Jaccard(a: set<string>, b: set<string>): real {
    if a + b == {} then 0.0 else |a * b| as real / |a + b| as real
  }

  lemma JaccardRange(a: set<string>, b: set<string>)
    ensures 0.0 <= Jaccard(a, b) <= 1.0
    ensures a + b != {} ==> (Jaccard(a, b) == 1.0 <==> a == b)
    ensures a * b == {} ==> Jaccard(a, b) == 0.0
  {
    if a + b != {} {
      SubsetSize(a * b, a + b);
      Fraction(|a * b|, |a + b|);
      if |a * b| == |a + b| {
        SameSize(a * b, a + b);
      }
      assert a * b == a + b <==> a == b;
    }
  }

  lemma Fraction(x: nat, y: nat)
    requires x <= y && 0 < y
    ensures 0.0 <= x as real / y as real <= 1.0
    ensures x as real / y as real == 1.0 <==> x == y
    ensures x == 0 ==> x as real / y as real == 0.0
  {
    var q := x as real / y as real;
    assert q * y as real == x as real;
  }

  lemma SameSize(a: set<string>, b: set<string>)
    requires a <= b && |a| == |b|
    ensures a == b
  {
    assert b == a + (b - a) && |b - a| == 0;
  }

  /** The tokens of an observation and of a version, statement and aliases together. */
  function TokensOf(p: Policy, statement: string, aliases: seq<string>): set<string> {
    p.tokens(Spelled([statement] + aliases))
  }

  /** How much of the text two observations share: of their tokens, or all of it when there are
      no tokens and the normalised texts agree. */
  ghost predicate TextShared(p: Policy, c: Candidate, v: Version, x: real) {
    var a, b := TokensOf(p, c.statement, c.aliases), TokensOf(p, v.statement, v.aliases);
    var mine, theirs := Spelled([c.statement] + c.aliases), Spelled([v.statement] + v.aliases);
    x == if a != {} && b != {} then Jaccard(a, b)
         else if p.norm(mine) == p.norm(theirs) && p.norm(mine) != "" then 1.0
         else 0.0
  }

  lemma TextSharedExactly(p: Policy, c: Candidate, v: Version)
    ensures TextShared(p, c, v, TextScore(p, c, v)) && 0.0 <= TextScore(p, c, v) <= 1.0
  {
    TextOf(c.statement, c.aliases);
    TextOf(v.statement, v.aliases);
    JaccardRange(TokensOf(p, c.statement, c.aliases), TokensOf(p, v.statement, v.aliases));
  }

  /** How many targets two observations share: all when neither has any, none when only one has. */
  lemma BindingSharedExactly(p: Policy, c: Candidate, v: Version)
    ensures var a, b := Targets(p, c.bindings), Targets(p, v.bindings);
            && (a == {} && b == {} ==> BindingScore(p, c, v) == 1.0)
            && (a != {} || b != {} ==> BindingScore(p, c, v) == Jaccard(a, b))
            && 0.0 <= BindingScore(p, c, v) <= 1.0
  {
    var a, b := Targets(p, c.bindings), Targets(p, v.bindings);
    JaccardRange(a, b);
    if a == {} || b == {} {
      assert a * b == {};
    }
  }

  /** The rank of a version for a candidate. */
  lemma RankExactly(p: Policy, c: Candidate, v: Version)
    ensures var a, b := Targets(p, c.bindings), Targets(p, v.bindings);
            var r := RankOf(p, c, v);
            && TextShared(p, c, v, r.text) && 0.0 <= r.score <= 1.0 && 0.0 <= r.text <= 1.0 && 0.0 <= r.binding <= 1.0
            && r.binding == (if a == {} && b == {} then 1.0 else Jaccard(a, b))
            && (p.norm(c.statement) == p.norm(v.statement) ==> r.score == 1.0)
            && (p.norm(c.statement) != p.norm(v.statement) && (a == {} || b == {}) ==> r.score == r.text)
            && (p.norm(c.statement) != p.norm(v.statement) && a != {} && b != {} ==>
                  var weighted, floor := 0.58 * r.text + 0.42 * r.binding, 0.56 + 0.3 * r.text;
                  r.score == if a * b != {} && r.text >= 0.25 && floor > weighted then floor else weighted)
  {
    hide TextScore, BindingScore, TextShared, Jaccard;
    TextSharedExactly(p, c, v);
    BindingSharedExactly(p, c, v);
    var a, b := Targets(p, c.bindings), Targets(p, v.bindings);
    assert a != {} && b != {} ==> RankOf(p, c, v).binding == Jaccard(a, b);
  }

  /** Which cards a candidate matches: active ones of its project and type, only those sharing a
      target where some do, that have its normalised statement, or enough text in common when
      one side has no target, or enough of text and targets when both have. */
  lemma MatchedExactly(s: Store, p: Policy, c: Candidate, id: CardId)
    ensures id in Matches(s, p, c) <==>
            && id in s.cards && VersionId(id, s.cards[id].current) in s.versions
            && s.cards[id].project == c.project && s.cards[id].kind == c.kind
            && s.cards[id].status !in {Rejected, Superseded}
            && var v := s.versions[VersionId(id, s.cards[id].current)];
               var a, b := Targets(p, c.bindings), Targets(p, v.bindings);
               var r := RankOf(p, c, v);
               && (Sharing(s, p, c) != {} ==> a * b != {})
               && (p.norm(c.statement) == p.norm(v.statement)
                   || ((a == {} || b == {}) && r.text >= 0.72)
                   || (a != {} && b != {} && a * b != {} && r.text >= 0.25)
                   || (a != {} && b != {} && 0.58 * r.text + 0.42 * r.binding >= 0.56))
  {
    hide TextScore, BindingScore, Targets;
    if id in s.cards && VersionId(id, s.cards[id].current) in s.versions {
      var v := s.versions[VersionId(id, s.cards[id].current)];
      TextSharedExactly(p, c, v);
      assert VersionOf(s, id) == v;
      assert id in Sharing(s, p, c) <==>
             id in Rows(s, c) && Targets(p, c.bindings) * Targets(p, v.bindings) != {};
    }
  }

  lemma SharingExactly(s: Store, p: Policy, c: Candidate)
    ensures Sharing(s, p, c) != {} <==>
            exists id :: id in Rows(s, c) && Targets(p, c.bindings) * Targets(p, VersionOf(s, id).bindings) != {}
  {
    if id :| id in Rows(s, c) && Targets(p, c.bindings) * Targets(p, VersionOf(s, id).bindings) != {} {
      assert id in Sharing(s, p, c);
    }
    if id :| id in Sharing(s, p, c) {
      assert id in Rows(s, c);
    }
  }

  /** The match taken has the highest score; among equals the most text, then the most targets. */
  lemma BestWins(s: Store, p: Policy, c: Candidate, ids: set<CardId>, best: CardId, other: CardId)
    requires Top(s, p, c, ids, best) && other in ids
    ensures var a, b := RankOf(p, c, VersionOf(s, best)), RankOf(p, c, VersionOf(s, other));
            && a.score >= b.score && (a.score == b.score ==> a.text >= b.text)
            && (a.score == b.score && a.text == b.text ==> a.binding >= b.binding)
  {
    hide RankOf;
  }

  /** Ambiguous: the best scores below 0.9 and the runner-up less than 0.08 behind it. */
  lemma AmbiguousExactly(s: Store, p: Policy, c: Candidate, choice: Choice)
    requires Justified(s, p, c, choice)
    ensures choice.Ambiguous? <==>
            exists best, second ::
              && Top(s, p, c, Matches(s, p, c), best) && Top(s, p, c, Matches(s, p, c) - {best}, second)
              && RankOf(p, c, VersionOf(s, best)).score < 0.9
              && RankOf(p, c, VersionOf(s, best)).score < RankOf(p, c, VersionOf(s, second)).score + 0.08
  {
    hide RankOf, Matches, Top;
    ChoiceKind(s, p, c, choice);
  }

  /******* Merge or new version *******/

  /** A matched candidate is merged into the current version exactly when the texts share at least
      0.62 and the targets, where both have some, at least 0.35; otherwise it is a new version. */
  lemma MergeExactly(s: Store, p: Policy, c: Candidate, choice: Choice, text: real)
    requires Justified(s, p, c, choice) && (choice.Same? || choice.Changed?) && Active(s, choice.card, c)
    requires TextShared(p, c, VersionOf(s, choice.card), text)
    ensures var a, b := Targets(p, c.bindings), Targets(p, VersionOf(s, choice.card).bindings);
            choice.Same? <==> text >= 0.62 && (a == {} || b == {} || Jaccard(a, b) >= 0.35)
  {
    hide Top, Clear, Matches, TextShared, RankOf, TextScore;
    var v := VersionOf(s, choice.card);
    TextSharedExactly(p, c, v);
    OneText(p, c, v, text, TextScore(p, c, v));
    var a, b := Targets(p, c.bindings), Targets(p, v.bindings);
    assert b * a == a * b && b + a == a + b;
  }

  lemma OneText(p: Policy, c: Candidate, v: Version, x: real, y: real)
    requires TextShared(p, c, v, x) && TextShared(p, c, v, y)
    ensures x == y
  {
  }

  /** A merge adds evidence to the current version and raises the confidence; nothing else of
      any card or version changes. */
  lemma MergeEffect(s: Store, p: Policy, c: Candidate, choice: Choice)
    requires choice.Same? && Active(s, choice.card, c)
    ensures var id, t := choice.card, Act(s, p, c, choice);
            && t.versions == s.versions && t.log == s.log && t.cards.Keys == s.cards.Keys
            && t.evidence ==
               s.evidence + (set e | e in c.evidence :: Evidence(VersionId(id, s.cards[id].current), c.id, e))
            && (forall o :: o in s.cards && o != id ==> t.cards[o] == s.cards[o])
            && t.cards[id].status == s.cards[id].status && t.cards[id].current == s.cards[id].current
            && t.cards[id].project == s.cards[id].project && t.cards[id].task == s.cards[id].task
            && t.cards[id].confidence ==
               if s.cards[id].confidence < c.confidence then c.confidence else s.cards[id].confidence
  {
  }

  /** A new version has the new statement and the author's doubts; it keeps the older aliases and
      bindings before the new ones, supersedes the version before it, which is closed, and
      takes a verified or stable card back to review. */
  lemma VersionEffect(s: Store, p: Policy, c: Candidate, choice: Choice)
    requires choice.Changed? && Active(s, choice.card, c)
    ensures var id, t := choice.card, Act(s, p, c, choice);
            var n := s.cards[id].current;
            var was, v := VersionId(id, n), VersionId(id, n + 1);
            && v in t.versions && t.versions.Keys == s.versions.Keys + {v}
            && (forall o :: o in s.versions && o != was && o != v ==> t.versions[o] == s.versions[o])
            && t.versions[was] == s.versions[was].(open := false)
            && t.cards.Keys == s.cards.Keys && (forall o :: o in s.cards && o != id ==> t.cards[o] == s.cards[o])
            && t.cards[id].current == n + 1
            && t.evidence == s.evidence + (set e | e in c.evidence :: Evidence(v, c.id, e))
    ensures var id, t := choice.card, Act(s, p, c, choice);
            var n := s.cards[id].current;
            var last, next := s.versions[VersionId(id, n)], t.versions[VersionId(id, n + 1)];
            && next.statement == c.statement && next.uncertainty == c.uncertainty && next.source == c.id && next.open
            && next.supersedes == Some(n)
            && FirstValues(last.aliases + c.aliases, next.aliases)
            && next.bindings == Leaders(p, last.bindings + c.bindings, |last.bindings| + |c.bindings|)
    ensures var id, t := choice.card, Act(s, p, c, choice);
            var was, now := s.cards[id].status, t.cards[id].status;
            && now == (if was.Verified? || was.Stable? then Uncertain else was)
            && t.log == s.log + (if was.Verified? || was.Stable? then [LogRow(id, was, Uncertain, false)] else [])
            && t.cards[id].confidence ==
               if s.cards[id].confidence < c.confidence then c.confidence else s.cards[id].confidence
  {
    hide UniqueStrings, DistinctBindings, CardIdOf, DecisionKeyOf;
    var last := s.versions[CurrentOf(s, choice.card)];
    UniqueStringsExact(last.aliases + c.aliases);
    DistinctBindingsExact(p, last.bindings + c.bindings);
  }

  /** A created card says what its candidate says: its first version has the statement and
      doubts, the aliases, and exactly the targets of the candidate's bindings. */
  lemma CreateEffect(s: Store, p: Policy, c: Candidate, choice: Choice)
    requires (choice.NoMatch? || choice.Ambiguous?) && CardIdOf(p, c) !in s.cards
    ensures var id, t := CardIdOf(p, c), Act(s, p, c, choice);
            var v := VersionId(id, 1);
            && t.cards.Keys == s.cards.Keys + {id} && (forall o :: o in s.cards ==> t.cards[o] == s.cards[o])
            && t.cards[id].project == c.project && t.cards[id].task == c.task && t.cards[id].kind == c.kind
            && t.cards[id].status == (if choice.NoMatch? then Proposed else Uncertain)
            && t.cards[id].current == 1 && t.cards[id].confidence == t.versions[v].confidence
            && (0.0 <= c.confidence <= 1.0 ==> t.cards[id].confidence == c.confidence)
            && t.versions.Keys == s.versions.Keys + {v} && t.log == s.log
            && t.evidence == s.evidence + (set e | e in c.evidence :: Evidence(v, c.id, e))
    ensures var v := Act(s, p, c, choice).versions[VersionId(CardIdOf(p, c), 1)];
            && v.statement == c.statement && v.uncertainty == c.uncertainty && v.source == c.id && v.open
            && v.supersedes.None? && FirstValues(c.aliases, v.aliases)
            && v.bindings == Leaders(p, c.bindings, |c.bindings|)
            && Targets(p, v.bindings) == Targets(p, c.bindings)
  {
    hide UniqueStrings, DistinctBindings, CardIdOf, DecisionKeyOf, Targets;
    UniqueStringsExact(c.aliases);
    DistinctBindingsExact(p, c.bindings);
    SameTargets(p, c.bindings);
  }

  lemma SameTargets(p: Policy, bindings: seq<Binding>)
    ensures Targets(p, DistinctBindings(p, bindings)) == Targets(p, bindings)
  {
    hide DistinctBindings;
    Represented(p, bindings);
    forall t ensures t in Targets(p, DistinctBindings(p, bindings)) <==> t in Targets(p, bindings) {
      if t in Targets(p, bindings) {
        var b :| b in bindings && p.target(b) == t;
        var o :| o in DistinctBindings(p, bindings) && SameTarget(p, o, b);
      }
    }
  }

  /** An exact repeat of an active card's current version, in normalised statement, tokens and
      targets, is always merged, into that card or one that says the same as exactly; so it
      never adds a version nor changes a status. */
  lemma ExactRepeatMerges(s: Store, p: Policy, c: Candidate, id: CardId, choice: Choice)
    requires id in Rows(s, c) && Justified(s, p, c, choice)
    requires var v := VersionOf(s, id);
             && p.norm(c.statement) == p.norm(v.statement) && Targets(p, c.bindings) == Targets(p, v.bindings)
             && TokensOf(p, c.statement, c.aliases) == TokensOf(p, v.statement, v.aliases) != {}
    ensures choice.Same?
    ensures var t := Act(s, p, c, choice);
            && t.versions == s.versions && t.cards.Keys == s.cards.Keys
            && forall o :: o in s.cards ==>
               t.cards[o].status == s.cards[o].status && t.cards[o].current == s.cards[o].current
  {
    hide Justified, RankOf, Matches, Sharing, Targets, TextShared, Jaccard, Act;
    var v := VersionOf(s, id);
    assert id in Compared(s, p, c) by { RepeatCompared(s, p, c, id); }
    RepeatMatchesExactly(s, p, c, id, choice);
    JustifiedActive(s, p, c, choice);
    var best := choice.card;
    var a, b := RankOf(p, c, v), RankOf(p, c, VersionOf(s, best));
    assert id in Matches(s, p, c) && Top(s, p, c, Matches(s, p, c), best) by { MatchedTop(s, p, c, id, choice); }
    FullRank(p, c, v);
    BestWins(s, p, c, Matches(s, p, c), best, id);
    RankExactly(p, c, VersionOf(s, best));
    MergeExactly(s, p, c, choice, b.text);
    SharedAll(p, c, VersionOf(s, best));
    MergeEffect(s, p, c, choice);
  }

  lemma RepeatCompared(s: Store, p: Policy, c: Candidate, id: CardId)
    requires id in Rows(s, c) && Targets(p, c.bindings) == Targets(p, VersionOf(s, id).bindings)
    ensures id in Compared(s, p, c)
  {
    hide Targets;
    var a := Targets(p, c.bindings);
    if a == {} {
      assert Sharing(s, p, c) == {};
    } else {
      assert a * a == a;
    }
  }

  lemma MatchedTop(s: Store, p: Policy, c: Candidate, id: CardId, choice: Choice)
    requires id in Compared(s, p, c) && p.norm(c.statement) == p.norm(VersionOf(s, id).statement)
    requires Justified(s, p, c, choice) && (choice.Same? || choice.Changed?)
    ensures id in Matches(s, p, c) && Top(s, p, c, Matches(s, p, c), choice.card)
  {
    hide RankOf, RawScore, TextScore, BindingScore;
    ReachesMinimum(p, c, VersionOf(s, id));
  }

  lemma FullRank(p: Policy, c: Candidate, v: Version)
    requires p.norm(c.statement) == p.norm(v.statement) && Targets(p, c.bindings) == Targets(p, v.bindings)
    requires TokensOf(p, c.statement, c.aliases) == TokensOf(p, v.statement, v.aliases) != {}
    ensures RankOf(p, c, v) == Rank(1.0, 1.0, 1.0)
  {
    hide Targets, RankOf, Jaccard;
    RankExactly(p, c, v);
    var a := TokensOf(p, c.statement, c.aliases);
    assert a + a == a;
    JaccardRange(a, a);
    var b := Targets(p, c.bindings);
    assert b + b == b;
    JaccardRange(b, b);
  }

  lemma SharedAll(p: Policy, c: Candidate, v: Version)
    requires RankOf(p, c, v).binding >= 1.0
    ensures var a, b := Targets(p, c.bindings), Targets(p, v.bindings);
            a == {} || b == {} || Jaccard(a, b) >= 0.35
  {
    hide Targets, RankOf, Jaccard;
    RankExactly(p, c, v);
  }

  /** A match whose targets have nothing in common with the card's always makes a new version and
      takes a verified or stable card to uncertain. */
  lemma DisjointMatchIsNew(s: Store, p: Policy, c: Candidate, choice: Choice)
    requires Justified(s, p, c, choice) && (choice.Same? || choice.Changed?) && Active(s, choice.card, c)
    requires var a, b := Targets(p, c.bindings), Targets(p, VersionOf(s, choice.card).bindings);
             a != {} && b != {} && a * b == {}
    ensures choice.Changed?
    ensures var id, t := choice.card, Act(s, p, c, choice);
            && t.cards[id].current == s.cards[id].current + 1
            && (s.cards[id].status.Verified? || s.cards[id].status.Stable? ==> t.cards[id].status.Uncertain?)
  {
    hide Justified, Targets, TextShared, Jaccard, Act;
    var v := VersionOf(s, choice.card);
    JustifiedActive(s, p, c, choice);
    TextSharedExactly(p, c, v);
    MergeExactly(s, p, c, choice, TextScore(p, c, v));
    JaccardRange(Targets(p, c.bindings), Targets(p, v.bindings));
    VersionEffect(s, p, c, choice);
  }

  /******* The lifecycle table *******/

  /** The transitions an operator may make, one by one. */
  lemma PermittedExactly(from: Status, to: Status)
    ensures Permitted(from, to) <==>
            (from, to) in {
              (Proposed, Verified), (Proposed, Stable), (Proposed, Uncertain), (Proposed, Rejected), (Proposed, Stale),
              (Verified, Stable), (Verified, Stale), (Verified, Superseded), (Verified, Uncertain),
              (Verified, Rejected),
              (Stable, Stale), (Stable, Superseded), (Stable, Rejected),
              (Uncertain, Proposed), (Uncertain, Verified), (Uncertain, Stable), (Uncertain, Rejected),
              (Uncertain, Stale),
              (Stale, Verified), (Stale, Stable), (Stale, Superseded), (Stale, Rejected),
              (Rejected, Proposed), (Rejected, Uncertain) }
  {
  }
}
