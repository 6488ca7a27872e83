/** Bounded maintenance requests: one row per (cycle, input hash)
    (src/codememory/storage/repository.py:711-859, src/codememory/cycle.py:570-609). */
module Maintenance {
  import opened Base

  datatype Status = Pending | Completed | Failed | Superseded

  datatype Row = Row(cycle: string, hash: string, turn: string, status: Status, attempts: nat, maxAttempts: nat,
                     provider: string, model: Option<string>, notes: nat, candidates: nat, error: Option<string>,
                     metadata: string, requestedAt: int, updatedAt: int, completedAt: Option<int>)

  type Table = map<string, Row>

  /** `metadata` is missing when the caller's mapping is empty. */
  datatype Ask = Ask(id: string, cycle: string, hash: string, turn: string, maximum: int, provider: string,
                     model: Option<string>, metadata: Option<string>)

  datatype Op =
    | Request(now: int, ask: Ask)
    | Complete(now: int, cycle: string, hash: string, model: string, notes: int, candidates: int)
    | Fail(now: int, cycle: string, hash: string, error: string)

  predicate Matches(r: Row, cycle: string, hash: string) { r.cycle == cycle && r.hash == hash }

  function Hits(m: Table, cycle: string, hash: string): set<string> {
    set id | id in m && Matches(m[id], cycle, hash)
  }

  function Limit(ask: Ask): nat { Max(1, ask.maximum) }

  /** The request is answered with the row as it is. */
  predicate Spent(r: Row, ask: Ask) {
    r.status.Completed? || r.attempts >= Max(Limit(ask), r.maxAttempts)
  }

  function Retried(r: Row, now: int, ask: Ask): Row {
    r.(status := Pending, attempts := r.attempts + 1, maxAttempts := Max(Limit(ask), r.maxAttempts), turn := ask.turn,
       provider := ask.provider, model := if ask.model.Some? then ask.model else r.model, error := None,
       metadata := ask.metadata.GetOr(r.metadata), updatedAt := now)
  }

  function NewRow(now: int, ask: Ask): Row {
    Row(ask.cycle, ask.hash, ask.turn, Pending, 1, Limit(ask), ask.provider, ask.model, 0, 0, None,
        ask.metadata.GetOr(""), now, now, None)
  }

  function Supersede(r: Row, now: int, ask: Ask): Row {
    if r.cycle == ask.cycle && r.status.Pending? && r.hash != ask.hash
    then r.(status := Superseded, updatedAt := now) else r
  }

  function CompleteRow(r: Row, op: Op): Row
    requires op.Complete?
  {
    r.(status := Completed, model := Some(op.model), notes := Max(0, op.notes), candidates := Max(0, op.candidates),
       error := None, updatedAt := op.now, completedAt := Some(op.now))
  }

  /** One transaction on the table; an id already used for another request is a
      constraint error that rolls it back. */
  function Apply(m: Table, op: Op): Table {
    match op
    case Request(now, ask) =>
      if Hits(m, ask.cycle, ask.hash) != {} then
        map id | id in m ::
          if Matches(m[id], ask.cycle, ask.hash) && !Spent(m[id], ask) then Retried(m[id], now, ask) else m[id]
      else if ask.id in m then m
      else (map id | id in m :: Supersede(m[id], now, ask))[ask.id := NewRow(now, ask)]
    case Complete(_, cycle, hash, _, _, _) =>
      map id | id in m :: if Matches(m[id], cycle, hash) then CompleteRow(m[id], op) else m[id]
    case Fail(now, cycle, hash, error) =>
      map id | id in m ::
        if Matches(m[id], cycle, hash) && !m[id].status.Completed?
        then m[id].(status := Failed, error := Some(error), updatedAt := now) else m[id]
  }

  function Exec(m: Table, ops: seq<Op>): Table
    decreases |ops|
  {
    if ops == [] then m else Apply(Exec(m, ops[..|ops| - 1]), ops[|ops| - 1])
  }

  /******* What one write says *******/

  /** A completed row says which model wrote how much and when, and nothing of an earlier
      error; its attempts and what was asked stay. */
  lemma CompletedExactly(m: Table, op: Op, id: string)
    requires id in m && op.Complete? && Matches(m[id], op.cycle, op.hash)
    ensures var r, t := m[id], Apply(m, op)[id];
            && t.status == Completed && t.completedAt == Some(op.now) && t.updatedAt == op.now && t.error == None
            && t.model == Some(op.model)
            && t.notes >= op.notes && (t.notes == op.notes || t.notes == 0)
            && t.candidates >= op.candidates && (t.candidates == op.candidates || t.candidates == 0)
            && t == r.(status := t.status, completedAt := t.completedAt, updatedAt := t.updatedAt, error := None,
                       model := t.model, notes := t.notes, candidates := t.candidates)
  {
  }

  /** A failed row keeps everything but its status, its error and when it was written; a
      completed one keeps everything. */
  lemma FailedExactly(m: Table, op: Op, id: string)
    requires id in m && op.Fail? && Matches(m[id], op.cycle, op.hash)
    ensures var r, t := m[id], Apply(m, op)[id];
            if r.status == Completed then t == r
            else t.status == Failed && t.error == Some(op.error) && t.updatedAt == op.now
                 && t == r.(status := t.status, error := t.error, updatedAt := t.updatedAt)
  {
  }

  /** A retry counts one more attempt, takes over what the new request says and keeps the
      model and the metadata where it says nothing. */
  lemma RetriedExactly(m: Table, now: int, ask: Ask, id: string)
    requires id in m && Matches(m[id], ask.cycle, ask.hash)
    requires m[id].status != Completed && m[id].attempts < Max(Max(1, ask.maximum), m[id].maxAttempts)
    ensures var r, t := m[id], Apply(m, Request(now, ask))[id];
            && t.status == Pending && t.attempts == r.attempts + 1 && t.updatedAt == now && t.error == None
            && t.maxAttempts >= r.maxAttempts && t.maxAttempts >= ask.maximum && t.maxAttempts >= 1
            && (t.maxAttempts == r.maxAttempts || t.maxAttempts == ask.maximum || t.maxAttempts == 1)
            && t.turn == ask.turn && t.provider == ask.provider
            && t.model == (if ask.model == None then r.model else ask.model)
            && (ask.metadata.None? ==> t.metadata == r.metadata)
            && (ask.metadata.Some? ==> t.metadata == ask.metadata.value)
            && t == r.(status := t.status, attempts := t.attempts, updatedAt := now, error := None,
                       maxAttempts := t.maxAttempts, turn := t.turn, provider := t.provider, model := t.model,
                       metadata := t.metadata)
  {
    assert id in Hits(m, ask.cycle, ask.hash);
  }

  /** A new hash opens a pending row at its first attempt, with what was asked. */
  lemma OpenedExactly(m: Table, now: int, ask: Ask)
    requires Hits(m, ask.cycle, ask.hash) == {} && ask.id !in m
    ensures ask.id in Apply(m, Request(now, ask))
    ensures var t := Apply(m, Request(now, ask))[ask.id];
            && t.cycle == ask.cycle && t.hash == ask.hash && t.turn == ask.turn && t.provider == ask.provider
            && t.model == ask.model && t.status == Pending && t.attempts == 1 && t.error == None
            && t.maxAttempts >= 1 && t.maxAttempts >= ask.maximum
            && (t.maxAttempts == 1 || t.maxAttempts == ask.maximum)
            && t.notes == t.candidates == 0 && t.requestedAt == t.updatedAt == now && t.completedAt == None
            && t.metadata == (if ask.metadata.Some? then ask.metadata.value else "")
  {
    assert ask.id in (map id | id in m :: Supersede(m[id], now, ask))[ask.id := NewRow(now, ask)];
  }

  /******* One row per (cycle, input hash) *******/

  ghost predicate Inv(m: Table) {
    && (forall a, b :: a in m && b in m && Matches(m[a], m[b].cycle, m[b].hash) ==> a == b)
    && (forall id :: id in m ==>
          0 < m[id].attempts <= m[id].maxAttempts && (m[id].status.Completed? <==> m[id].completedAt.Some?))
  }

  lemma ApplyInv(m: Table, op: Op)
    requires Inv(m)
    ensures Inv(Apply(m, op))
  {
    hide Apply;
    ApplyRowsSound(m, op);
    ApplyKeysUnique(m, op);
  }

  lemma ApplyRowsSound(m: Table, op: Op)
    requires Inv(m)
    ensures var t := Apply(m, op);
            forall id :: id in t ==>
              0 < t[id].attempts <= t[id].maxAttempts && (t[id].status.Completed? <==> t[id].completedAt.Some?)
  {
  }

  lemma ApplyKeysUnique(m: Table, op: Op)
    requires Inv(m)
    ensures var t := Apply(m, op);
            forall a, b :: a in t && b in t && Matches(t[a], t[b].cycle, t[b].hash) ==> a == b
  {
    if op.Request? && Hits(m, op.ask.cycle, op.ask.hash) == {} {
      assert forall id :: id in m ==> id !in Hits(m, op.ask.cycle, op.ask.hash);
    }
  }

  lemma {:induction false} RunInv(ops: seq<Op>)
    ensures Inv(Exec(map[], ops))
    decreases |ops|
  {
    if ops != [] {
      RunInv(ops[..|ops| - 1]);
      ApplyInv(Exec(map[], ops[..|ops| - 1]), ops[|ops| - 1]);
    }
  }

  /******* What never goes back *******/

  /** What any later row of the same id keeps of an earlier one. */
  predicate Advanced(r: Row, t: Row) {
    && t.cycle == r.cycle && t.hash == r.hash && t.requestedAt == r.requestedAt
    && r.attempts <= t.attempts && r.maxAttempts <= t.maxAttempts
    && (r.status.Completed? ==> t.status.Completed? && t.attempts == r.attempts && t.maxAttempts == r.maxAttempts)
  }

  lemma {:induction false} RunAdvances(m: Table, ops: seq<Op>, id: string)
    requires id in m
    ensures id in Exec(m, ops) && Advanced(m[id], Exec(m, ops)[id])
    decreases |ops|
  {
    if ops != [] {
      RunAdvances(m, ops[..|ops| - 1], id);
      ApplyAdvances(Exec(m, ops[..|ops| - 1]), ops[|ops| - 1], id);
    }
  }

  lemma ApplyAdvances(m: Table, op: Op, id: string)
    requires id in m
    ensures id in Apply(m, op) && Advanced(m[id], Apply(m, op)[id])
  {
  }

  /******* How often a request is granted *******/

  /** The request is new or another attempt is allowed. */
  predicate Granted(m: Table, op: Op, cycle: string, hash: string) {
    && op.Request? && op.ask.cycle == cycle && op.ask.hash == hash
    && if Hits(m, cycle, hash) == {} then op.ask.id !in m
       else exists id :: id in Hits(m, cycle, hash) && !Spent(m[id], op.ask)
  }

  function Grants(m: Table, ops: seq<Op>, cycle: string, hash: string): nat
    decreases |ops|
  {
    if ops == [] then 0
    else
      var before := ops[..|ops| - 1];
      Grants(m, before, cycle, hash) + if Granted(Exec(m, before), ops[|ops| - 1], cycle, hash) then 1 else 0
  }

  /** The attempts of a row are exactly the grants of its (cycle, hash), and never more
      than the largest maximum asked for. */
  lemma {:induction false} AttemptsAreGrants(ops: seq<Op>, cycle: string, hash: string, most: nat)
    requires forall op :: op in ops && op.Request? && op.ask.cycle == cycle && op.ask.hash == hash ==>
               Limit(op.ask) <= most
    ensures var m := Exec(map[], ops);
            && (forall id :: id in Hits(m, cycle, hash) ==>
                  m[id].attempts == Grants(map[], ops, cycle, hash) && m[id].maxAttempts <= most)
            && (Hits(m, cycle, hash) == {} ==> Grants(map[], ops, cycle, hash) == 0)
            && Grants(map[], ops, cycle, hash) <= most
    decreases |ops|
  {
    hide Apply, Inv, Exec, Granted;
    if ops == [] {
      assert Exec(map[], ops) == map[] by { ExecNone(); }
    } else {
      var before, op := ops[..|ops| - 1], ops[|ops| - 1];
      AttemptsAreGrants(before, cycle, hash, most);
      var m := Exec(map[], before);
      RunInv(before);
      ExecSnoc(ops);
      assert op in ops;
      GrantStep(m, op, cycle, hash, Grants(map[], before, cycle, hash), most);
    }
  }

  lemma ExecNone()
    ensures Exec(map[], []) == map[]
  {
  }

  lemma ExecSnoc(ops: seq<Op>)
    requires ops != []
    ensures Exec(map[], ops) == Apply(Exec(map[], ops[..|ops| - 1]), ops[|ops| - 1])
  {
  }

  lemma GrantStep(m: Table, op: Op, cycle: string, hash: string, n: nat, most: nat)
    requires Inv(m) && n <= most
    requires op.Request? && op.ask.cycle == cycle && op.ask.hash == hash ==> Limit(op.ask) <= most
    requires forall id :: id in Hits(m, cycle, hash) ==> m[id].attempts == n && m[id].maxAttempts <= most
    requires Hits(m, cycle, hash) == {} ==> n == 0
    ensures var t := Apply(m, op);
            var k := n + if Granted(m, op, cycle, hash) then 1 else 0;
            && (forall id :: id in Hits(t, cycle, hash) ==> t[id].attempts == k && t[id].maxAttempts <= most)
            && (Hits(t, cycle, hash) == {} ==> k == 0)
            && k <= most
  {
    var t := Apply(m, op);
    ApplyHits(m, op, cycle, hash);
    if Hits(m, cycle, hash) != {} {
      var id :| id in Hits(m, cycle, hash);
      assert forall o :: o in Hits(m, cycle, hash) ==> o == id;
      assert t[id].attempts == m[id].attempts + if Granted(m, op, cycle, hash) then 1 else 0;
    }
  }

  /** Rows of a (cycle, hash) only appear by a granted first request. */
  lemma ApplyHits(m: Table, op: Op, cycle: string, hash: string)
    ensures Hits(Apply(m, op), cycle, hash) ==
            if Hits(m, cycle, hash) == {} && Granted(m, op, cycle, hash) then {op.ask.id} else Hits(m, cycle, hash)
  {
    var t := Apply(m, op);
    forall id | id in m ensures id in t && t[id].cycle == m[id].cycle && t[id].hash == m[id].hash {
      ApplyAdvances(m, op, id);
    }
    assert forall id :: id in Hits(m, cycle, hash) ==> id in Hits(t, cycle, hash);
    assert forall id :: id in Hits(t, cycle, hash) && id in m ==> id in Hits(m, cycle, hash);
  }

  /******* When a request changes nothing *******/

  /** A request is answered without a change exactly when its row is completed or has
      used up the larger of the two maxima (or its id belongs to another request). */
  lemma RequestUnchangedExactly(m: Table, now: int, ask: Ask)
    requires Inv(m)
    ensures Apply(m, Request(now, ask)) == m <==>
            if Hits(m, ask.cycle, ask.hash) == {} then ask.id in m
            else forall id :: id in Hits(m, ask.cycle, ask.hash) ==>
              m[id].status.Completed? || m[id].attempts >= Max(Limit(ask), m[id].maxAttempts)
  {
    var t := Apply(m, Request(now, ask));
    if Hits(m, ask.cycle, ask.hash) != {} {
      var id :| id in Hits(m, ask.cycle, ask.hash);
      assert forall o :: o in Hits(m, ask.cycle, ask.hash) ==> o == id;
      if !Spent(m[id], ask) {
        assert t[id].attempts == m[id].attempts + 1;
      } else {
        forall o | o in m ensures t[o] == m[o] {
          if Matches(m[o], ask.cycle, ask.hash) {
            assert o in Hits(m, ask.cycle, ask.hash);
          }
        }
      }
    } else if ask.id !in m {
      assert ask.id in t;
    }
  }

  /******* Pending rows of a cycle *******/

  function PendingIn(m: Table, cycle: string): set<string> {
    set id | id in m && m[id].cycle == cycle && m[id].status.Pending?
  }

  /** A request for a new hash leaves its row the only pending one of its cycle and
      marks the others superseded; no other cycle is touched. */
  lemma NewHashSupersedes(m: Table, now: int, ask: Ask)
    requires Hits(m, ask.cycle, ask.hash) == {} && ask.id !in m
    ensures var t := Apply(m, Request(now, ask));
            && PendingIn(t, ask.cycle) == {ask.id} && t[ask.id] == NewRow(now, ask)
            && (forall id :: id in PendingIn(m, ask.cycle) ==> t[id] == m[id].(status := Superseded, updatedAt := now))
            && (forall id :: id in m && id !in PendingIn(m, ask.cycle) ==> t[id] == m[id])
  {
    var t := Apply(m, Request(now, ask));
    assert forall id :: id in m ==> id !in Hits(m, ask.cycle, ask.hash);
  }

  /** Which rows are pending after a request: a new hash alone, or whatever was pending
      and the retried row. So a cycle gets a second pending row exactly when an
      existing hash is retried while another row is pending. */
  lemma PendingAfterRequest(m: Table, now: int, ask: Ask)
    requires Inv(m)
    ensures var hits := Hits(m, ask.cycle, ask.hash);
            PendingIn(Apply(m, Request(now, ask)), ask.cycle) ==
            if hits == {} then (if ask.id in m then PendingIn(m, ask.cycle) else {ask.id})
            else if exists id :: id in hits && !Spent(m[id], ask) then PendingIn(m, ask.cycle) + hits
            else PendingIn(m, ask.cycle)
  {
    var hits := Hits(m, ask.cycle, ask.hash);
    var t := Apply(m, Request(now, ask));
    if hits == {} {
      if ask.id !in m {
        NewHashSupersedes(m, now, ask);
      }
    } else {
      var id :| id in hits;
      assert forall o :: o in hits ==> o == id;
      forall o | o in m
        ensures o in PendingIn(t, ask.cycle) <==> o in PendingIn(m, ask.cycle) || (o == id && !Spent(m[id], ask))
      {
        if Matches(m[o], ask.cycle, ask.hash) {
          assert o in hits;
        }
      }
      if Spent(m[id], ask) {
        assert forall o :: o in hits ==> Spent(m[o], ask);
      }
    }
  }

  function Plain(id: string, hash: string): Ask { Ask(id, "c", hash, "", 2, "agent", None, None) }

  /** Two evidence hashes and a retry of the first: both are pending. */
  lemma TwoPending()
    ensures PendingIn(Exec(map[], [Request(0, Plain("a", "h")), Request(1, Plain("b", "g")),
                                   Request(2, Plain("a", "h"))]), "c")
         == {"a", "b"}
  {
    var first, second, third := Request(0, Plain("a", "h")), Request(1, Plain("b", "g")), Request(2, Plain("a", "h"));
    var ops := [first, second, third];
    assert ops[..2] == [first, second] && [first, second][..1] == [first] && [first][..0] == [];
    var one := map["a" := NewRow(0, Plain("a", "h"))];
    assert Apply(map[], first) == one;
    assert Exec(map[], [first]) == one by { assert Exec(map[], [first][..0]) == map[]; }
    var two := Apply(one, second);
    NewHashSupersedes(one, 1, Plain("b", "g"));
    assert "a" in PendingIn(one, "c");
    assert Exec(map[], [first, second]) == two;
    assert two["a"].status == Superseded && two["a"].attempts == 1 && two["a"].hash == "h" && two["a"].cycle == "c";
    assert Exec(map[], ops) == Apply(two, third);
    assert "a" in Hits(two, "c", "h");
    RunInv([first, second]);
    assert !Spent(two["a"], Plain("a", "h"));
    PendingAfterRequest(two, 2, Plain("a", "h"));
    assert Hits(two, "c", "h") == {"a"};
  }

  /******* Ids from the cycle service *******/

  /** The service derives the id of a request from its (cycle, hash). */
  predicate Derived(digest: (string, string) -> string, ops: seq<Op>) {
    forall op :: op in ops && op.Request? ==> op.ask.id == digest(op.ask.cycle, op.ask.hash)
  }

  ghost predicate Injective(digest: (string, string) -> string) {
    forall a, b, c, d :: digest(a, b) == digest(c, d) ==> a == c && b == d
  }

  /** With derived ids the id clash never happens: every new hash gets its row. */
  lemma {:induction false} DerivedNeverClash(digest: (string, string) -> string, ops: seq<Op>)
    requires Injective(digest) && Derived(digest, ops)
    ensures forall id :: id in Exec(map[], ops) ==> id == digest(Exec(map[], ops)[id].cycle, Exec(map[], ops)[id].hash)
    ensures forall cycle, hash :: Hits(Exec(map[], ops), cycle, hash) == {} ==> digest(cycle, hash) !in Exec(map[], ops)
    decreases |ops|
  {
    if ops != [] {
      var before, op := ops[..|ops| - 1], ops[|ops| - 1];
      assert forall x :: x in before ==> x in ops;
      assert op in ops;
      DerivedNeverClash(digest, before);
      var m := Exec(map[], before);
      forall id | id in m ensures Advanced(m[id], Apply(m, op)[id]) {
        ApplyAdvances(m, op, id);
      }
    }
    var t := Exec(map[], ops);
    forall cycle, hash | digest(cycle, hash) in t ensures digest(cycle, hash) in Hits(t, cycle, hash) {
    }
  }

  /******* The repository *******/

  class MaintenanceRepository {
    var rows: Table

    constructor ()
      ensures rows == map[]
    {
      rows := map[];
    }

    method IsoNow() returns (now: int) {
      now := *;
    }

    method Get(cycle: string, hash: string) returns (r: Option<Row>)
      requires Inv(rows)
      ensures r.Some? <==> Hits(rows, cycle, hash) != {}
      ensures forall id :: id in Hits(rows, cycle, hash) ==> r == Some(rows[id])
    {
      var hits := Hits(rows, cycle, hash);
      if hits == {} {
        return None;
      }
      var id :| id in hits;
      r := Some(rows[id]);
    }

    /** None is the constraint error of a reused id. */
    method RequestRow(ask: Ask) returns (r: Option<Row>)
      requires Inv(rows)
      modifies this
      ensures Inv(rows)
      ensures exists now :: rows == Apply(old(rows), Request(now, ask))
      ensures r.None? <==> Hits(old(rows), ask.cycle, ask.hash) == {} && ask.id in old(rows)
      ensures r.Some? ==> exists id :: Hits(rows, ask.cycle, ask.hash) == {id} && r == Some(rows[id])
    {
      hide Retried, Supersede, NewRow, Spent;
      var now := IsoNow();
      ghost var op := Request(now, ask);
      ghost var m := rows;
      ApplyInv(rows, op);
      ApplyHits(rows, op, ask.cycle, ask.hash);
      var hits := Hits(rows, ask.cycle, ask.hash);
      if hits != {} {
        var id :| id in hits;
        SoleHit(rows, ask.cycle, ask.hash, id);
        var current := rows[id];
        if Spent(current, ask) {
          SpentUnchanged(rows, now, ask, id);
          assert rows == Apply(m, op);
          return Some(current);
        }
        RetriedAlone(rows, now, ask, id);
        rows := rows[id := Retried(current, now, ask)];
        assert rows == Apply(m, op);
        return Some(rows[id]);
      }
      if ask.id in rows {
        assert rows == Apply(m, op);
        return None;
      }
      rows := map id | id in rows :: Supersede(rows[id], now, ask);
      rows := rows[ask.id := NewRow(now, ask)];
      assert rows == Apply(m, op);
      assert Hits(rows, ask.cycle, ask.hash) == {ask.id};
      return Some(rows[ask.id]);
    }

    method CompleteRequest(cycle: string, hash: string, model: string, notes: int, candidates: int)
      returns (r: Option<Row>)
      requires Inv(rows)
      modifies this
      ensures Inv(rows)
      ensures exists now :: rows == Apply(old(rows), Complete(now, cycle, hash, model, notes, candidates))
      ensures r.None? <==> Hits(old(rows), cycle, hash) == {}
      ensures r.Some? ==> r.value.status.Completed? && Matches(r.value, cycle, hash)
    {
      var now := IsoNow();
      var op := Complete(now, cycle, hash, model, notes, candidates);
      ApplyInv(rows, op);
      ApplyHits(rows, op, cycle, hash);
      rows := map id | id in rows :: if Matches(rows[id], cycle, hash) then CompleteRow(rows[id], op) else rows[id];
      assert rows == Apply(old(rows), op);
      r := Get(cycle, hash);
    }

    method FailRequest(cycle: string, hash: string, error: string) returns (r: Option<Row>)
      requires Inv(rows)
      modifies this
      ensures Inv(rows)
      ensures exists now :: rows == Apply(old(rows), Fail(now, cycle, hash, error))
      ensures r.None? <==> Hits(old(rows), cycle, hash) == {}
      ensures r.Some? ==> Matches(r.value, cycle, hash) && (r.value.status.Completed? || r.value.status.Failed?)
    {
      var now := IsoNow();
      ghost var op := Fail(now, cycle, hash, error);
      ApplyInv(rows, op);
      ApplyHits(rows, op, cycle, hash);
      rows := map id | id in rows ::
        if Matches(rows[id], cycle, hash) && !rows[id].status.Completed?
        then rows[id].(status := Failed, error := Some(error), updatedAt := now) else rows[id];
      assert rows == Apply(old(rows), op);
      r := Get(cycle, hash);
    }

    /** ORDER BY updated_at DESC, requested_at DESC LIMIT 1; ties in any order. */
    method Latest(cycle: string) returns (id: Option<string>)
      ensures id.None? <==> forall o :: o in rows ==> rows[o].cycle != cycle
      ensures id.Some? ==> IsLatest(rows, cycle, id.value)
    {
      var left := set o | o in rows && rows[o].cycle == cycle;
      id := None;
      ghost var all := left;
      while left != {}
        invariant left <= all
        invariant id.None? ==> left == all
        invariant id.Some? ==> id.value in all && forall o :: o in all - left ==> !Later(rows[o], rows[id.value])
        decreases |left|
      {
        var o :| o in left;
        if id.None? || Later(rows[o], rows[id.value]) {
          id := Some(o);
        }
        left := left - {o};
      }
      assert forall o :: o in rows && rows[o].cycle == cycle ==> o in all;
      assert id.Some? ==> id.value in rows && rows[id.value].cycle == cycle;
    }

    /** Only the latest row of the cycle is failed, and only while it is pending. */
    method FailPending(cycle: string, error: string) returns (failed: Option<string>)
      requires Inv(rows)
      modifies this
      ensures Inv(rows)
      ensures failed.None? ==> rows == old(rows)
      ensures failed.Some? ==>
                && IsLatest(old(rows), cycle, failed.value) && old(rows)[failed.value].status.Pending?
                && rows.Keys == old(rows).Keys && rows[failed.value].status.Failed?
                && rows[failed.value].error == Some(error)
                && forall id :: id in rows && id != failed.value ==> rows[id] == old(rows)[id]
      ensures failed.None? ==>
                (forall id :: id in old(rows) ==> old(rows)[id].cycle != cycle) || SettledLast(old(rows), cycle)
    {
      var id := Latest(cycle);
      if id.None? || !rows[id.value].status.Pending? {
        return None;
      }
      var row := FailRequest(cycle, rows[id.value].hash, error);
      failed := id;
    }
  }

  predicate Later(a: Row, b: Row) {
    a.updatedAt > b.updatedAt || (a.updatedAt == b.updatedAt && a.requestedAt > b.requestedAt)
  }

  predicate IsLatest(m: Table, cycle: string, id: string) {
    id in m && m[id].cycle == cycle && forall o :: o in m && m[o].cycle == cycle ==> !Later(m[o], m[id])
  }

  /** Some latest row of the cycle is not pending. */
  ghost predicate SettledLast(m: Table, cycle: string) {
    exists o :: IsLatest(m, cycle, o) && !m[o].status.Pending?
  }

  /** The latest rows of a cycle were updated last and, among those, requested last. */
  lemma LatestExactly(m: Table, cycle: string, id: string)
    ensures IsLatest(m, cycle, id) <==>
            id in m && m[id].cycle == cycle
            && forall o :: o in m && m[o].cycle == cycle ==>
                 m[o].updatedAt < m[id].updatedAt
                 || (m[o].updatedAt == m[id].updatedAt && m[o].requestedAt <= m[id].requestedAt)
  {
  }

  lemma SoleHit(m: Table, cycle: string, hash: string, id: string)
    requires Inv(m) && id in Hits(m, cycle, hash)
    ensures Hits(m, cycle, hash) == {id}
  {
  }

  lemma SpentUnchanged(m: Table, now: int, ask: Ask, id: string)
    requires Hits(m, ask.cycle, ask.hash) == {id} && Spent(m[id], ask)
    ensures Apply(m, Request(now, ask)) == m
  {
    hide Spent, Retried;
    forall o | o in m && Matches(m[o], ask.cycle, ask.hash) ensures o == id {
      assert o in Hits(m, ask.cycle, ask.hash);
    }
  }

  lemma RetriedAlone(m: Table, now: int, ask: Ask, id: string)
    requires Hits(m, ask.cycle, ask.hash) == {id} && !Spent(m[id], ask)
    ensures id in m && Apply(m, Request(now, ask)) == m[id := Retried(m[id], now, ask)]
  {
    hide Spent, Retried;
    assert id in Hits(m, ask.cycle, ask.hash);
    forall o | o in m && Matches(m[o], ask.cycle, ask.hash) ensures o == id {
      assert o in Hits(m, ask.cycle, ask.hash);
    }
  }
}
