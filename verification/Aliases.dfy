/** Which logical project owns a raw project, decided by ranked alias rows
    (src/codememory/quality/store.py:379-525, src/codememory/storage/scope.py). */
module Aliases {
  import opened Base

  datatype AliasType = Explicit | Repo | Basename | Root | Inferred

  function Rank(t: AliasType): nat {
    match t
    case Explicit => 0
    case Repo => 1
    case Basename => 2
    case Root => 3
    case Inferred => 4
  }

  /** The unique index of the table. */
  datatype Key = Key(raw: string, logical: string, kind: AliasType, value: string)

  /** `id` stands for the random alias id in its text order. */
  datatype Alias = Alias(id: int, confidence: real, root: Option<string>, createdAt: int, updatedAt: int)

  type Rows = map<Key, Alias>

  datatype Scopes = Scopes(projects: set<string>, rows: Rows)

  datatype Call = Call(now: int, id: int, raw: string, logical: string, kind: AliasType, value: string, root: string,
                       confidence: real)

  datatype Op = AddProject(raw: string) | Ensure(call: Call) | Register(call: Call)

  /******* The effective alias *******/

  /** ORDER BY type rank, confidence DESC, updated_at DESC, alias_id. */
  predicate Beats(a: Key, x: Alias, b: Key, y: Alias) {
    || Rank(a.kind) < Rank(b.kind)
    || (Rank(a.kind) == Rank(b.kind)
        && (x.confidence > y.confidence
            || (x.confidence == y.confidence
                && (x.updatedAt > y.updatedAt || (x.updatedAt == y.updatedAt && x.id < y.id)))))
  }

  /** An explicit alias beats every other type, then a repository, a basename and a root;
      an inferred one beats none. */
  lemma TypesExactly(a: Key, x: Alias, b: Key, y: Alias)
    requires a.kind != b.kind
    ensures Beats(a, x, b, y) <==>
            || a.kind == Explicit || b.kind == Inferred
            || (a.kind == Repo && b.kind != Explicit) || (b.kind == Root && a.kind != Inferred)
    ensures Beats(a, x, b, y) <==> !Beats(b, y, a, x)
  {
  }

  predicate IsBest(rows: Rows, raw: string, k: Key) {
    k in rows && k.raw == raw && forall o :: o in rows && o.raw == raw && o != k ==> Beats(k, rows[k], o, rows[o])
  }

  /** Alias ids are unique, so no two rows tie. */
  ghost predicate Inv(rows: Rows) {
    && (forall a, b :: a in rows && b in rows && rows[a].id == rows[b].id ==> a == b)
    && (forall k :: k in rows ==> 0.0 <= rows[k].confidence <= 1.0)
  }

  function KeysOf(rows: Rows, raw: string): set<Key> { set k | k in rows && k.raw == raw }

  lemma {:induction false} BestExists(rows: Rows, ks: set<Key>) returns (best: Key)
    requires Inv(rows) && ks <= rows.Keys && ks != {}
    ensures best in ks && forall o :: o in ks && o != best ==> Beats(best, rows[best], o, rows[o])
    decreases |ks|
  {
    best :| best in ks;
    if ks != {best} {
      assert |ks - {best}| < |ks|;
      var other := BestExists(rows, ks - {best});
      if Beats(other, rows[other], best, rows[best]) {
        best := other;
      }
    }
  }

  lemma BestUnique(rows: Rows, raw: string, a: Key, b: Key)
    requires IsBest(rows, raw, a) && IsBest(rows, raw, b)
    ensures a == b
  {
  }

  /** `effective_logical_project_id`: the first row of the ranked query. */
  ghost function Owner(rows: Rows, raw: string): Option<string> {
    if k :| IsBest(rows, raw, k) then Some(k.logical) else None
  }

  lemma OwnerIs(rows: Rows, raw: string, k: Key)
    requires IsBest(rows, raw, k)
    ensures Owner(rows, raw) == Some(k.logical)
  {
    var o :| IsBest(rows, raw, o) && Owner(rows, raw) == Some(o.logical);
    BestUnique(rows, raw, k, o);
  }

  lemma OwnerOf(rows: Rows, raw: string) returns (k: Key)
    requires Inv(rows) && KeysOf(rows, raw) != {}
    ensures IsBest(rows, raw, k) && Owner(rows, raw) == Some(k.logical)
  {
    k := BestExists(rows, KeysOf(rows, raw));
    OwnerIs(rows, raw, k);
  }

  lemma NoOwner(rows: Rows, raw: string)
    requires KeysOf(rows, raw) == {}
    ensures Owner(rows, raw) == None
  {
    assert forall k :: k in rows ==> k !in KeysOf(rows, raw);
  }

  /******* Three forms of one relation *******/

  /** ROW_NUMBER() within the raw project. */
  function RowNumber(rows: Rows, k: Key): nat
    requires k in rows
  {
    1 + |set o | o in rows && o.raw == k.raw && Beats(o, rows[o], k, rows[k])|
  }

  /** `raw_project_ids_for_logical` as the window query. */
  function RawIdsFor(rows: Rows, logical: string): set<string> {
    set k | k in rows && RowNumber(rows, k) == 1 && k.logical == logical :: k.raw
  }

  lemma FirstIsBest(rows: Rows, k: Key)
    requires Inv(rows) && k in rows
    ensures RowNumber(rows, k) == 1 <==> IsBest(rows, k.raw, k)
  {
    var above := set o | o in rows && o.raw == k.raw && Beats(o, rows[o], k, rows[k]);
    if above == {} {
      forall o | o in rows && o.raw == k.raw && o != k ensures Beats(k, rows[k], o, rows[o]) {
        assert o !in above;
      }
    } else {
      var o :| o in above;
      assert o != k;
    }
  }

  /** The window query and the single lookup agree, so the logical projects partition
      the raw projects that have an alias. */
  lemma OwnersPartition(rows: Rows, raw: string, logical: string)
    requires Inv(rows)
    ensures raw in RawIdsFor(rows, logical) <==> Owner(rows, raw) == Some(logical)
    ensures (exists l :: Owner(rows, raw) == Some(l)) <==> KeysOf(rows, raw) != {}
  {
    if KeysOf(rows, raw) == {} {
      NoOwner(rows, raw);
      assert forall k :: k in rows ==> k !in KeysOf(rows, raw);
    } else {
      var best := OwnerOf(rows, raw);
      FirstIsBest(rows, best);
      if raw in RawIdsFor(rows, logical) {
        var k :| k in rows && RowNumber(rows, k) == 1 && k.logical == logical && k.raw == raw;
        FirstIsBest(rows, k);
        BestUnique(rows, raw, k, best);
      }
    }
  }

  /******* Writing aliases *******/

  function Target(c: Call): Call
  {
    c.(value := if c.value != "" then c.value else if c.root != "" then c.root else c.raw)
  }

  function KeyOf(c: Call): Key { Key(c.raw, c.logical, c.kind, c.value) }

  function NewAlias(c: Call): Alias {
    Alias(c.id, Clamp(c.confidence), if c.root != "" then Some(c.root) else None, c.now, c.now)
  }

  function Merged(x: Alias, c: Call): Alias {
    x.(root := NewAlias(c).root, updatedAt := c.now,
       confidence := if x.confidence < Clamp(c.confidence) then Clamp(c.confidence) else x.confidence)
  }

  /** The upsert fails for an unknown raw project and for a reused alias id. */
  predicate Writable(s: Scopes, c: Call) {
    c.raw in s.projects && (KeyOf(c) in s.rows || forall k :: k in s.rows ==> s.rows[k].id != c.id)
  }

  function Upsert(rows: Rows, c: Call): Rows {
    rows[KeyOf(c) := if KeyOf(c) in rows then Merged(rows[KeyOf(c)], c) else NewAlias(c)]
  }

  /** A stronger or a confident mapping keeps the raw project where it is. */
  predicate Redirected(rows: Rows, c: Call, best: Key) {
    best.logical != c.logical && (Rank(best.kind) < Rank(c.kind) || c.confidence < 0.95)
  }

  ghost function Directed(rows: Rows, c: Call): Call {
    if k :| IsBest(rows, c.raw, k) && Redirected(rows, c, k) then c.(logical := k.logical) else c
  }

  /** What a call writes: `ensure` fills the value in and may change the logical project. */
  ghost function Written(rows: Rows, op: Op): Call
    requires !op.AddProject?
  {
    match op
    case Ensure(c) => Directed(rows, Target(c))
    case Register(c) => c
  }

  ghost predicate Succeeds(s: Scopes, op: Op) {
    op.AddProject?
    || ((op.Register? ==> op.call.logical != "" && op.call.raw != "") && Writable(s, Written(s.rows, op)))
  }

  ghost function Apply(s: Scopes, op: Op): Scopes {
    if !Succeeds(s, op) then s
    else if op.AddProject? then s.(projects := s.projects + {op.raw})
    else s.(rows := Upsert(s.rows, Written(s.rows, op)))
  }

  ghost function Exec(s: Scopes, ops: seq<Op>): Scopes
    decreases |ops|
  {
    if ops == [] then s else Apply(Exec(s, ops[..|ops| - 1]), ops[|ops| - 1])
  }

  /** A successful write leaves one row changed: it has the root of the call, the better
      of the two confidences, and the id and the creation time it was first written with. */
  lemma WriteExactly(s: Scopes, op: Op)
    requires Succeeds(s, op) && !op.AddProject?
    ensures var w, t := Written(s.rows, op), Apply(s, op).rows;
            var k := Key(w.raw, w.logical, w.kind, w.value);
            && t.Keys == s.rows.Keys + {k} && (forall o :: o in s.rows && o != k ==> t[o] == s.rows[o])
            && t[k].root == (if op.call.root == "" then None else Some(op.call.root))
            && t[k].updatedAt == op.call.now && t[k].confidence >= Clamp(op.call.confidence)
            && (k !in s.rows ==>
                t[k].confidence == Clamp(op.call.confidence) && t[k].id == op.call.id && t[k].createdAt == op.call.now)
            && (k in s.rows ==>
                t[k].confidence >= s.rows[k].confidence && t[k].id == s.rows[k].id
                && t[k].createdAt == s.rows[k].createdAt
                && (t[k].confidence == s.rows[k].confidence || t[k].confidence == Clamp(op.call.confidence)))
    ensures var w := Written(s.rows, op);
            && w.raw == op.call.raw && w.kind == op.call.kind
            && (op.Register? ==> w == op.call)
            && (op.call.value != "" || op.Register? ==> w.value == op.call.value)
            && (op.call.value == "" && op.Ensure? ==>
                w.value == if op.call.root != "" then op.call.root else op.call.raw)
  {
  }

  lemma ApplyInv(s: Scopes, op: Op)
    requires Inv(s.rows)
    ensures Inv(Apply(s, op).rows)
  {
    hide Directed;
  }

  lemma {:induction false} RunInv(s: Scopes, ops: seq<Op>)
    requires Inv(s.rows)
    ensures Inv(Exec(s, ops).rows)
    decreases |ops|
  {
    hide Inv, Apply;
    if ops != [] {
      RunInv(s, ops[..|ops| - 1]);
      ApplyInv(Exec(s, ops[..|ops| - 1]), ops[|ops| - 1]);
    }
  }

  /******* How one write moves the owner *******/

  /** After an upsert some row at least as strong is best, and the old one still is if
      the written row is of a weaker type. */
  lemma RankAfterUpsert(rows: Rows, c: Call, best: Key) returns (after: Key)
    requires Inv(rows) && Inv(Upsert(rows, c)) && IsBest(rows, c.raw, best)
    ensures IsBest(Upsert(rows, c), c.raw, after) && Rank(after.kind) <= Rank(best.kind)
    ensures Rank(best.kind) < Rank(c.kind) ==> after == best
  {
    var t := Upsert(rows, c);
    assert best in KeysOf(t, c.raw);
    after := BestExists(t, KeysOf(t, c.raw));
    assert forall o :: o in KeysOf(t, c.raw) ==> o in t && o.raw == c.raw;
  }

  /** Rewriting the best row lets another one pass it. */
  predicate Overtaken(rows: Rows, c: Call, best: Key) {
    best == KeyOf(c) && best in rows
    && exists o :: o in rows && o.raw == c.raw && o != best && Beats(o, rows[o], best, Merged(rows[best], c))
  }

  /** Only a clock that has gone back behind the best row does that; otherwise the best row
      after an upsert is the old one or the written one. */
  lemma BestAfterUpsert(rows: Rows, c: Call, best: Key) returns (after: Key)
    requires Inv(rows) && Inv(Upsert(rows, c)) && IsBest(rows, c.raw, best)
    ensures IsBest(Upsert(rows, c), c.raw, after)
    ensures !Overtaken(rows, c, best) ==> after == best || after == KeyOf(c)
    ensures Overtaken(rows, c, best) ==> after != best && c.now < rows[best].updatedAt
  {
    var t := Upsert(rows, c);
    after := RankAfterUpsert(rows, c, best);
    assert best in t && best.raw == c.raw;
    assert after != best ==> Beats(after, t[after], best, t[best]);
    assert forall o :: o in t && o != KeyOf(c) ==> t[o] == rows[o];
    assert forall o :: o in rows && o.raw == c.raw && o != best ==> Beats(best, rows[best], o, rows[o]);
  }

  lemma OthersUntouched(rows: Rows, c: Call, raw: string)
    requires raw != c.raw
    ensures Owner(Upsert(rows, c), raw) == Owner(rows, raw)
  {
    var t := Upsert(rows, c);
    forall k ensures IsBest(t, raw, k) <==> IsBest(rows, raw, k) {
    }
    if k :| IsBest(rows, raw, k) {
      OwnerIs(rows, raw, k);
      OwnerIs(t, raw, k);
    }
  }

  lemma DirectedIs(rows: Rows, c: Call, best: Key)
    requires IsBest(rows, c.raw, best)
    ensures Directed(rows, c) == if Redirected(rows, c, best) then c.(logical := best.logical) else c
  {
    if k :| IsBest(rows, c.raw, k) && Redirected(rows, c, k) {
      BestUnique(rows, c.raw, k, best);
    }
  }

  lemma DirectedNone(rows: Rows, c: Call)
    requires KeysOf(rows, c.raw) == {}
    ensures Directed(rows, c) == c
  {
    assert forall k :: k in rows ==> k !in KeysOf(rows, c.raw);
  }

  /** The first alias decides the owner. */
  lemma FirstAliasOwns(s: Scopes, op: Op)
    requires !op.AddProject? && Succeeds(s, op) && KeysOf(s.rows, op.call.raw) == {}
    ensures Owner(Apply(s, op).rows, op.call.raw) == Some(op.call.logical)
  {
    if op.Ensure? {
      DirectedNone(s.rows, Target(op.call));
    }
    var c := Written(s.rows, op);
    assert forall k :: k in s.rows ==> k !in KeysOf(s.rows, op.call.raw);
    OwnerIs(Apply(s, op).rows, op.call.raw, KeyOf(c));
  }

  /** A write of a strictly weaker type never changes the owner. */
  lemma WeakerKeepsOwner(s: Scopes, op: Op, best: Key)
    requires Inv(s.rows) && !op.AddProject? && IsBest(s.rows, op.call.raw, best) && Rank(best.kind) < Rank(op.call.kind)
    ensures IsBest(Apply(s, op).rows, op.call.raw, best)
    ensures Owner(Apply(s, op).rows, op.call.raw) == Owner(s.rows, op.call.raw) == Some(best.logical)
  {
    hide Inv, IsBest, Owner, Writable, Upsert;
    ApplyInv(s, op);
    OwnerIs(s.rows, op.call.raw, best);
    if Succeeds(s, op) {
      WrittenFields(s.rows, op);
      var after := RankAfterUpsert(s.rows, Written(s.rows, op), best);
      OwnerIs(Apply(s, op).rows, op.call.raw, best);
    }
  }

  lemma WrittenFields(rows: Rows, op: Op)
    requires !op.AddProject?
    ensures Written(rows, op).raw == op.call.raw && Written(rows, op).kind == op.call.kind
    ensures Written(rows, op).confidence == op.call.confidence && Written(rows, op).now == op.call.now
  {
  }

  /** `ensure` moves a raw project to another owner exactly when its own row is not
      redirected and comes out on top; so only at confidence 0.95 or more and with a
      type at least as strong as the effective alias. The one exception is a call redirected
      onto the effective alias itself that dates it back behind another row: then the
      strongest of the other rows owns, and only then can the owner be one that is neither
      the old one nor the one asked for. */
  lemma EnsureMovesExactly(s: Scopes, c: Call, best: Key)
    requires Inv(s.rows) && IsBest(s.rows, c.raw, best) && Succeeds(s, Ensure(c)) && best.logical != c.logical
    ensures Overtaken(s.rows, Written(s.rows, Ensure(c)), best) ==>
              Redirected(s.rows, c, best) && c.now < s.rows[best].updatedAt
              && exists next :: IsBest(s.rows - {best}, c.raw, next) && IsBest(Apply(s, Ensure(c)).rows, c.raw, next)
                                && Owner(Apply(s, Ensure(c)).rows, c.raw) == Some(next.logical)
    ensures var owner := Owner(Apply(s, Ensure(c)).rows, c.raw);
            owner != Some(best.logical) && owner != Some(c.logical) <==>
            Overtaken(s.rows, Written(s.rows, Ensure(c)), best)
            && exists next :: IsBest(s.rows - {best}, c.raw, next) && next.logical != best.logical
                               && next.logical != c.logical
    ensures var t := Apply(s, Ensure(c)).rows;
            !Overtaken(s.rows, Written(s.rows, Ensure(c)), best) ==>
            Owner(t, c.raw) == Some(best.logical)
            || (Owner(t, c.raw) == Some(c.logical) && Rank(c.kind) <= Rank(best.kind) && c.confidence >= 0.95)
    ensures var t := Apply(s, Ensure(c)).rows;
            var mine := KeyOf(Target(c));
            !Overtaken(s.rows, Written(s.rows, Ensure(c)), best) ==>
            (Owner(t, c.raw) == Some(c.logical) <==>
             !Redirected(s.rows, c, best) && mine in t && Beats(mine, t[mine], best, s.rows[best]))
  {
    hide Inv, Owner, Writable, Directed;
    var op := Ensure(c);
    ApplyInv(s, op);
    var w := Written(s.rows, op);
    DirectedIs(s.rows, Target(c), best);
    var t := Apply(s, op).rows;
    var after := BestAfterUpsert(s.rows, w, best);
    OwnerIs(t, c.raw, after);
    if Overtaken(s.rows, w, best) {
      NextBest(s.rows, w, best, after);
      forall next | IsBest(s.rows - {best}, c.raw, next) ensures next == after {
        BestUnique(s.rows - {best}, c.raw, next, after);
      }
    }
  }

  /** Once the best row is overtaken by rewriting it, the best of the others is best. */
  lemma NextBest(rows: Rows, c: Call, best: Key, after: Key)
    requires Overtaken(rows, c, best) && IsBest(Upsert(rows, c), c.raw, after) && after != best
    ensures IsBest(rows - {best}, c.raw, after)
  {
    var t, others := Upsert(rows, c), rows - {best};
    assert forall o :: o in others ==> o in t && t[o] == others[o];
  }

  /** Two aliases of one type and confidence. A third call at an earlier time is redirected
      onto the newer one, which it dates back, and the raw project moves to the other owner. */
  lemma ClockBackMoves(root: Option<string>)
    ensures var newer, older := Key("r", "one", Basename, "r"), Key("r", "two", Basename, "r");
            var s := Scopes({"r"}, map[newer := Alias(1, 0.5, root, 5, 5), older := Alias(2, 0.5, root, 3, 3)]);
            var call := Call(1, 3, "r", "three", Basename, "r", "", 0.5);
            Owner(s.rows, "r") == Some("one") && Owner(Apply(s, Ensure(call)).rows, "r") == Some("two")
  {
    hide Owner, Directed;
    var newer, older := Key("r", "one", Basename, "r"), Key("r", "two", Basename, "r");
    var s := Scopes({"r"}, map[newer := Alias(1, 0.5, root, 5, 5), older := Alias(2, 0.5, root, 3, 3)]);
    var call := Call(1, 3, "r", "three", Basename, "r", "", 0.5);
    OwnerIs(s.rows, "r", newer);
    DirectedIs(s.rows, Target(call), newer);
    var t := Apply(s, Ensure(call)).rows;
    assert Written(s.rows, Ensure(call)) == call.(logical := "one");
    OwnerIs(t, "r", older);
  }

  /******* The owner over every run *******/

  /** The effective alias never gets weaker, and a raw project once owned stays owned. */
  lemma ApplyRank(s: Scopes, op: Op, raw: string, best: Key) returns (after: Key)
    requires Inv(s.rows) && IsBest(s.rows, raw, best)
    ensures IsBest(Apply(s, op).rows, raw, after) && Rank(after.kind) <= Rank(best.kind)
  {
    hide Inv, Owner, Writable, Directed;
    ApplyInv(s, op);
    after := best;
    if !op.AddProject? && Succeeds(s, op) {
      WrittenFields(s.rows, op);
      if op.call.raw == raw {
        after := RankAfterUpsert(s.rows, Written(s.rows, op), best);
      }
    }
  }

  lemma {:induction false} RankNeverWeakens(s: Scopes, ops: seq<Op>, raw: string, best: Key) returns (after: Key)
    requires Inv(s.rows) && IsBest(s.rows, raw, best)
    ensures IsBest(Exec(s, ops).rows, raw, after) && Rank(after.kind) <= Rank(best.kind)
    decreases |ops|
  {
    hide Inv, Apply, IsBest;
    if ops == [] {
      after := best;
    } else {
      var mid := RankNeverWeakens(s, ops[..|ops| - 1], raw, best);
      RunInv(s, ops[..|ops| - 1]);
      after := ApplyRank(Exec(s, ops[..|ops| - 1]), ops[|ops| - 1], raw, mid);
    }
  }

  /** As long as only strictly weaker aliases of a raw project arrive, its owner stays. */
  lemma {:induction false} OwnerHolds(s: Scopes, ops: seq<Op>, raw: string, best: Key)
    requires Inv(s.rows) && IsBest(s.rows, raw, best)
    requires forall op :: op in ops && !op.AddProject? && op.call.raw == raw ==> Rank(best.kind) < Rank(op.call.kind)
    ensures Owner(Exec(s, ops).rows, raw) == Some(best.logical) && IsBest(Exec(s, ops).rows, raw, best)
    decreases |ops|
  {
    hide Inv, Apply, IsBest, Owner;
    if ops == [] {
      OwnerIs(s.rows, raw, best);
    } else {
      var before, op := ops[..|ops| - 1], ops[|ops| - 1];
      assert forall x :: x in before ==> x in ops;
      assert op in ops;
      OwnerHolds(s, before, raw, best);
      RunInv(s, before);
      var t := Exec(s, before);
      if !op.AddProject? && op.call.raw == raw {
        WeakerKeepsOwner(t, op, best);
      } else {
        ElsewhereKeepsBest(t, op, raw, best);
        OwnerIs(Apply(t, op).rows, raw, best);
      }
    }
  }

  lemma ElsewhereKeepsBest(s: Scopes, op: Op, raw: string, best: Key)
    requires IsBest(s.rows, raw, best) && (op.AddProject? || op.call.raw != raw)
    ensures IsBest(Apply(s, op).rows, raw, best)
  {
    hide Writable, Directed;
    if !op.AddProject? {
      WrittenFields(s.rows, op);
    }
  }

  /******* The store *******/

  /** `keys` lists the rows `done` in the ranked order. */
  ghost predicate Ranked(rows: Rows, done: set<Key>, keys: seq<Key>) {
    && done <= rows.Keys && (forall k :: k in done <==> k in keys)
    && (forall i, j :: 0 <= i < j < |keys| ==> Beats(keys[i], rows[keys[i]], keys[j], rows[keys[j]]))
  }

  class AliasStore {
    var projects: set<string>
    var rows: Rows

    ghost function State(): Scopes
      reads this
    {
      Scopes(projects, rows)
    }

    constructor (projects: set<string>)
      ensures State() == Scopes(projects, map[]) && Inv(rows)
    {
      this.projects, rows := projects, map[];
    }

    /** LIMIT 1 of the ranked query. */
    method Strongest(raw: string) returns (best: Option<Key>)
      requires Inv(rows)
      ensures best.None? <==> KeysOf(rows, raw) == {}
      ensures best.Some? ==> IsBest(rows, raw, best.value)
    {
      var ks := KeysOf(rows, raw);
      if ks == {} {
        return None;
      }
      ghost var w := BestExists(rows, ks);
      var k :| k in ks && forall o :: o in ks && o != k ==> Beats(k, rows[k], o, rows[o]);
      best := Some(k);
      assert forall o :: o in rows && o.raw == raw ==> o in ks;
    }

    method EffectiveOwner(raw: string) returns (owner: Option<string>)
      requires Inv(rows)
      ensures owner == Owner(rows, raw)
    {
      var best := Strongest(raw);
      if best.None? {
        NoOwner(rows, raw);
        return None;
      }
      OwnerIs(rows, raw, best.value);
      owner := Some(best.value.logical);
    }

    method UpsertRow(c: Call) returns (ok: bool)
      requires Inv(rows)
      modifies `rows
      ensures ok == Writable(old(State()), c)
      ensures rows == if ok then Upsert(old(rows), c) else old(rows)
    {
      if c.raw !in projects || (KeyOf(c) !in rows && exists k :: k in rows && rows[k].id == c.id) {
        return false;
      }
      rows := rows[KeyOf(c) := if KeyOf(c) in rows then Merged(rows[KeyOf(c)], c) else NewAlias(c)];
      ok := true;
    }

    method EnsureLogicalProject(call: Call) returns (ok: bool)
      requires Inv(rows)
      modifies `rows
      ensures Inv(rows) && State() == Apply(old(State()), Ensure(call)) && ok == Succeeds(old(State()), Ensure(call))
    {
      ApplyInv(State(), Ensure(call));
      var c := Target(call);
      var existing := Strongest(c.raw);
      ghost var directed := Directed(rows, c);
      if existing.Some? {
        DirectedIs(rows, c, existing.value);
        var stronger := Rank(existing.value.kind) < Rank(c.kind);
        if existing.value.logical != c.logical && (stronger || c.confidence < 0.95) {
          c := c.(logical := existing.value.logical);
        }
      } else {
        DirectedNone(rows, c);
      }
      assert c == directed;
      ok := UpsertRow(c);
    }

    method RegisterAlias(call: Call) returns (ok: bool)
      requires Inv(rows)
      modifies `rows
      ensures Inv(rows) && State() == Apply(old(State()), Register(call))
      ensures ok == Succeeds(old(State()), Register(call))
    {
      ApplyInv(State(), Register(call));
      if call.logical == "" || call.raw == "" {
        return false;
      }
      ok := UpsertRow(call);
    }

    method SelectRanked() returns (keys: seq<Key>)
      requires Inv(rows)
      ensures Ranked(rows, rows.Keys, keys)
    {
      hide Inv, Ranked, Beats;
      keys := [];
      var left := rows.Keys;
      assert rows.Keys - left == {};
      NoneRanked(rows);
      while left != {}
        invariant left <= rows.Keys && Ranked(rows, rows.Keys - left, keys)
        invariant forall k, o :: k in rows.Keys - left && o in left ==> Beats(k, rows[k], o, rows[o])
        decreases |left|
      {
        ghost var w := BestExists(rows, left);
        var k :| k in left && forall o :: o in left && o != k ==> Beats(k, rows[k], o, rows[o]);
        RankedMore(rows, rows.Keys - left, keys, k);
        assert rows.Keys - (left - {k}) == (rows.Keys - left) + {k};
        keys := keys + [k];
        left := left - {k};
      }
      assert rows.Keys - left == rows.Keys;
    }

    /** The first row of each raw project wins. */
    method ScopeMap() returns (effective: map<string, string>)
      requires Inv(rows)
      ensures forall raw :: (if raw in effective then Some(effective[raw]) else None) == Owner(rows, raw)
    {
      hide Inv, Owner, Beats;
      var keys := SelectRanked();
      effective := map[];
      var i := 0;
      while i < |keys|
        invariant i <= |keys|
        invariant forall j :: 0 <= j < i ==> keys[j].raw in effective
        invariant forall raw :: raw in effective ==> Owner(rows, raw) == Some(effective[raw])
      {
        if keys[i].raw !in effective {
          FirstOfRaw(rows, keys, i);
          effective := effective[keys[i].raw := keys[i].logical];
        }
        i := i + 1;
      }
      AllListed(rows, keys, effective);
    }

    /** The first-wins loop lists the same raw projects as the window query. */
    method RawIdsForLogical(logical: string) returns (ids: set<string>)
      requires Inv(rows)
      ensures ids == RawIdsFor(rows, logical)
    {
      hide RawIdsFor, Inv, Owner;
      var effective := ScopeMap();
      ids := set raw | raw in effective && effective[raw] == logical;
      forall raw ensures raw in ids <==> raw in RawIdsFor(rows, logical) {
        OwnersPartition(rows, raw, logical);
      }
    }
  }

  lemma NoneRanked(rows: Rows)
    ensures Ranked(rows, {}, [])
  {
  }

  lemma RankedMore(rows: Rows, done: set<Key>, keys: seq<Key>, k: Key)
    requires Ranked(rows, done, keys) && k in rows && k !in done
    requires forall o :: o in done ==> Beats(o, rows[o], k, rows[k])
    ensures Ranked(rows, done + {k}, keys + [k])
  {
    hide Beats;
    forall i, j | 0 <= i < j < |keys + [k]|
      ensures Beats((keys + [k])[i], rows[(keys + [k])[i]], (keys + [k])[j], rows[(keys + [k])[j]])
    {
      if j == |keys| {
        assert keys[i] in done;
      }
    }
  }

  lemma AllListed(rows: Rows, keys: seq<Key>, effective: map<string, string>)
    requires Ranked(rows, rows.Keys, keys)
    requires forall j :: 0 <= j < |keys| ==> keys[j].raw in effective
    ensures forall raw :: raw !in effective ==> Owner(rows, raw) == None
  {
    hide Owner;
    forall raw | raw !in effective ensures Owner(rows, raw) == None {
      forall k | k in rows ensures k.raw != raw {
        var j :| 0 <= j < |keys| && keys[j] == k;
      }
      assert KeysOf(rows, raw) == {};
      NoOwner(rows, raw);
    }
  }

  lemma FirstOfRaw(rows: Rows, keys: seq<Key>, i: nat)
    requires i < |keys| && Ranked(rows, rows.Keys, keys)
    requires forall j :: 0 <= j < i ==> keys[j].raw != keys[i].raw
    ensures Owner(rows, keys[i].raw) == Some(keys[i].logical)
  {
    assert keys[i] in keys;
    forall o | o in rows && o.raw == keys[i].raw && o != keys[i] ensures Beats(keys[i], rows[keys[i]], o, rows[o]) {
      var j :| 0 <= j < |keys| && keys[j] == o;
    }
    OwnerIs(rows, keys[i].raw, keys[i]);
  }
}
