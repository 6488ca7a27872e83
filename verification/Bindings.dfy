/** Verification results applied to card bindings (src/codememory/verification/store.py:266-336). */
module Bindings {
  import opened Base

  datatype Status = Unverified | Verified | Stale | Missing | Renamed | Rejected

  datatype Entry = Entry(run: string, status: Status, score: real, checkedAt: int)

  datatype Result = Result(id: string, status: Status, score: real, path: Option<string>, symbol: Option<string>,
                           reasons: seq<string>, checkedAt: int)

  datatype Detail = Detail(entry: Entry, snapshot: string, path: Option<string>, symbol: Option<string>,
                           reasons: seq<string>, applied: bool)

  /** A card binding; `latest` and `history` are the two verification keys of its metadata. */
  datatype Row = Row(status: Status, snapshot: Option<string>, latest: Option<Detail>, history: seq<Entry>,
                     updatedAt: int)

  datatype Db = Db(bindings: map<string, Row>, checks: map<(string, string), Detail>)

  /** One call: the run, its snapshot, the binding rows read beforehand, and the mode. */
  datatype Session = Session(run: string, snapshot: string, known: map<string, Row>, apply: bool)

  function Last8(h: seq<Entry>): seq<Entry> { if |h| <= 8 then h else h[|h| - 8..] }

  function Head20(reasons: seq<string>): seq<string> { if |reasons| <= 20 then reasons else reasons[..20] }

  predicate Considered(c: Session, r: Result) { r.id != "" && r.id in c.known }

  predicate Applies(c: Session, current: Row, r: Result) {
    c.apply && (!r.status.Unverified? || current.status.Unverified?)
  }

  function EntryOf(run: string, r: Result): Entry { Entry(run, r.status, Clamp(r.score), r.checkedAt) }

  function DetailOf(c: Session, current: Row, r: Result, reasons: seq<string>): Detail {
    Detail(EntryOf(c.run, r), c.snapshot, r.path, r.symbol, reasons, Applies(c, current, r))
  }

  /** The row an applied result writes: built from the row read before the call. */
  function Overwritten(c: Session, current: Row, r: Result): Row {
    Row(r.status, Some(c.snapshot), Some(DetailOf(c, current, r, Head20(r.reasons))),
        Last8(current.history + [EntryOf(c.run, r)]), r.checkedAt)
  }

  function RecordOne(db: Db, c: Session, r: Result): Db {
    if !Considered(c, r) then db
    else
      var current := c.known[r.id];
      Db(if Applies(c, current, r) && r.id in db.bindings
         then db.bindings[r.id := Overwritten(c, current, r)] else db.bindings,
         db.checks[(c.run, r.id) := DetailOf(c, current, r, r.reasons)])
  }

  function RecordAll(db: Db, c: Session, results: seq<Result>): (t: Db)
    ensures t.bindings.Keys == db.bindings.Keys
    decreases |results|
  {
    if results == [] then db
    else RecordOne(RecordAll(db, c, results[..|results| - 1]), c, results[|results| - 1])
  }

  /** An applied result writes its status, the snapshot it was read in and itself, ahead of
      at most seven earlier entries; the log of the run keeps all its reasons, the binding
      the first twenty. */
  lemma WrittenExactly(db: Db, c: Session, r: Result)
    requires Considered(c, r)
    ensures var current, t := c.known[r.id], RecordOne(db, c, r);
            var applied := c.apply && (r.status != Unverified || current.status == Unverified);
            && (c.run, r.id) in t.checks
            && var check := t.checks[(c.run, r.id)];
               && check.entry.run == c.run && check.entry.status == r.status && check.entry.checkedAt == r.checkedAt
               && check.entry.score == (if r.score < 0.0 then 0.0 else if r.score > 1.0 then 1.0 else r.score)
               && check.snapshot == c.snapshot && check.path == r.path && check.symbol == r.symbol
               && check.reasons == r.reasons && check.applied == applied
               && (forall k :: k in db.checks && k != (c.run, r.id) ==> k in t.checks && t.checks[k] == db.checks[k])
               && (forall id :: id in db.bindings && (id != r.id || !applied) ==> t.bindings[id] == db.bindings[id])
               && (r.id in db.bindings && applied ==> WrittenRow(c, current, r, check, t.bindings[r.id]))
  {
  }

  /** What a binding holds after a result was applied to it. */
  ghost predicate WrittenRow(c: Session, current: Row, r: Result, check: Detail, row: Row) {
    && row.status == r.status && row.snapshot == Some(c.snapshot) && row.updatedAt == r.checkedAt
    && row.latest.Some? && row.latest.value == check.(reasons := row.latest.value.reasons)
    && row.latest.value.reasons <= r.reasons
    && (|row.latest.value.reasons| == |r.reasons| <= 20 || |row.latest.value.reasons| == 20 < |r.reasons|)
    && row.history != [] && row.history[|row.history| - 1] == check.entry
    && |row.history| <= |current.history| + 1 && (|row.history| == |current.history| + 1 || |row.history| == 8)
    && (forall k :: 0 <= k < |row.history| - 1 ==>
          row.history[k] == current.history[k + |current.history| + 1 - |row.history|])
    && |row.history| <= 8
  }

  /******* One call in closed form *******/

  /** The last result for a binding that applies, judged by the row read beforehand. */
  function LastApplied(c: Session, results: seq<Result>, id: string): Option<Result>
    decreases |results|
  {
    if results == [] then None
    else
      var r := results[|results| - 1];
      if r.id == id && Considered(c, r) && Applies(c, c.known[id], r) then Some(r)
      else LastApplied(c, results[..|results| - 1], id)
  }

  /** A call leaves each binding as it was or as its last applied result wrote it. */
  lemma {:induction false} RecordRow(db: Db, c: Session, results: seq<Result>, id: string)
    requires id in db.bindings
    ensures RecordAll(db, c, results).bindings[id] ==
            match LastApplied(c, results, id)
            case None => db.bindings[id]
            case Some(r) => if id in c.known then Overwritten(c, c.known[id], r) else db.bindings[id]
    decreases |results|
  {
    hide Overwritten, DetailOf;
    if results != [] {
      RecordRow(db, c, results[..|results| - 1], id);
    }
  }

  /** A dry run changes no binding. */
  lemma {:induction false} DryRunKeepsBindings(db: Db, c: Session, results: seq<Result>)
    requires !c.apply
    ensures RecordAll(db, c, results).bindings == db.bindings
    decreases |results|
  {
    if results != [] {
      DryRunKeepsBindings(db, c, results[..|results| - 1]);
    }
  }

  /******* Sequences of verification passes *******/

  /** One `verify` call: it reads the bindings it will check and evaluates each once. */
  datatype Pass = Pass(run: string, snapshot: string, write: bool, results: seq<Result>)

  predicate OneEach(db: Db, p: Pass) {
    && (forall i, j :: 0 <= i < j < |p.results| ==> p.results[i].id != p.results[j].id)
    && (forall r :: r in p.results ==> r.id in db.bindings && r.id != "")
  }

  function IdsOf(results: seq<Result>): set<string> { set r | r in results :: r.id }

  function Reading(db: Db, p: Pass): Session {
    Session(p.run, p.snapshot, map id | id in IdsOf(p.results) && id in db.bindings :: db.bindings[id], p.write)
  }

  function DoPass(db: Db, p: Pass): Db { RecordAll(db, Reading(db, p), p.results) }

  function DoPasses(db: Db, ps: seq<Pass>): (t: Db)
    ensures t.bindings.Keys == db.bindings.Keys
    decreases |ps|
  {
    if ps == [] then db else DoPass(DoPasses(db, ps[..|ps| - 1]), ps[|ps| - 1])
  }

  predicate AllOneEach(db: Db, ps: seq<Pass>) { forall p :: p in ps ==> OneEach(db, p) }

  /** What the write-mode passes said about a binding, in order. */
  function Said(ps: seq<Pass>, id: string): seq<Entry>
    decreases |ps|
  {
    if ps == [] then []
    else
      var p := ps[|ps| - 1];
      Said(ps[..|ps| - 1], id) + if p.write then EntriesFor(p.run, p.results, id) else []
  }

  function EntriesFor(run: string, results: seq<Result>, id: string): seq<Entry>
    decreases |results|
  {
    if results == [] then []
    else
      var r := results[|results| - 1];
      EntriesFor(run, results[..|results| - 1], id) + if r.id == id then [EntryOf(run, r)] else []
  }

  /** The last verdict other than unverified, or the initial status. */
  function Decided(initial: Status, es: seq<Entry>): Status
    decreases |es|
  {
    if es == [] then initial
    else if !es[|es| - 1].status.Unverified? then es[|es| - 1].status
    else Decided(initial, es[..|es| - 1])
  }

  /** The entries that change a row: verdicts, and unverified results while nothing is decided. */
  function Counting(initial: Status, es: seq<Entry>): seq<Entry>
    decreases |es|
  {
    if es == [] then []
    else
      var before, e := es[..|es| - 1], es[|es| - 1];
      Counting(initial, before) + if !e.status.Unverified? || Decided(initial, before).Unverified? then [e] else []
  }

  lemma {:induction false} EntriesOfOne(run: string, results: seq<Result>, id: string)
    requires forall i, j :: 0 <= i < j < |results| ==> results[i].id != results[j].id
    ensures id !in IdsOf(results) ==> EntriesFor(run, results, id) == []
    ensures forall r :: r in results && r.id == id ==> EntriesFor(run, results, id) == [EntryOf(run, r)]
    decreases |results|
  {
    if results != [] {
      var before, last := results[..|results| - 1], results[|results| - 1];
      EntriesOfOne(run, before, id);
      assert forall r :: r in before ==> r in results;
      assert last in results;
      assert forall r :: r in results ==> r in before || r == last;
      if last.id == id {
        assert id !in IdsOf(before);
      }
    }
  }

  lemma {:induction false} LastAppliedOfOne(c: Session, results: seq<Result>, id: string)
    requires forall i, j :: 0 <= i < j < |results| ==> results[i].id != results[j].id
    ensures id !in IdsOf(results) ==> LastApplied(c, results, id) == None
    ensures forall r :: r in results && r.id == id ==>
              LastApplied(c, results, id) == if Considered(c, r) && Applies(c, c.known[id], r) then Some(r) else None
    decreases |results|
  {
    if results != [] {
      var before, last := results[..|results| - 1], results[|results| - 1];
      LastAppliedOfOne(c, before, id);
      assert forall r :: r in before ==> r in results;
      assert last in results;
      assert forall r :: r in results ==> r in before || r == last;
      if last.id == id {
        assert id !in IdsOf(before);
      }
    }
  }

  /** One pass on one binding: its result, if it applies, written over the current row. */
  lemma PassRow(db: Db, p: Pass, id: string)
    requires OneEach(db, p) && id in db.bindings
    ensures var x := db.bindings[id];
            var es := if p.write then EntriesFor(p.run, p.results, id) else [];
            var y := DoPass(db, p).bindings[id];
            && |es| <= 1
            && (if es != [] && (!es[0].status.Unverified? || x.status.Unverified?)
                then y.status == es[0].status && y.history == Last8(x.history + es) else y == x)
  {
    var c := Reading(db, p);
    RecordRow(db, c, p.results, id);
    EntriesOfOne(p.run, p.results, id);
    LastAppliedOfOne(c, p.results, id);
    if r :| r in p.results && r.id == id {
      assert Considered(c, r) && c.known[id] == db.bindings[id];
    }
  }

  lemma Last8Again(h: seq<Entry>, e: Entry)
    ensures Last8(Last8(h) + [e]) == Last8(h + [e])
  {
  }

  /** A row after `es` is what its initial row and the entries that count determine. */
  predicate Explained(x: Row, y: Row, es: seq<Entry>) {
    && y.status == Decided(x.status, es)
    && y.history == (if Counting(x.status, es) == [] then x.history else Last8(x.history + Counting(x.status, es)))
    && (Counting(x.status, es) == [] ==> y == x)
  }

  lemma ExplainedMore(x: Row, y: Row, z: Row, es: seq<Entry>, e: Entry)
    requires Explained(x, y, es)
    requires if !e.status.Unverified? || y.status.Unverified?
             then z.status == e.status && z.history == Last8(y.history + [e]) else z == y
    ensures Explained(x, z, es + [e])
  {
    hide Last8;
    var all := es + [e];
    assert all[..|all| - 1] == es && all[|all| - 1] == e;
    var counted := Counting(x.status, es);
    Last8Again(x.history + counted, e);
    assert x.history + (counted + [e]) == (x.history + counted) + [e];
    assert counted == [] ==> x.history + (counted + [e]) == x.history + [e];
    assert counted + [] == counted;
  }

  /** The projection theorem. After any sequence of passes the status of a binding is
      the last write-mode verdict other than unverified, or its initial status; its
      history is the last eight of the entries that counted. */
  lemma {:induction false} StatusIsLastVerdict(db: Db, ps: seq<Pass>, id: string)
    requires AllOneEach(db, ps) && id in db.bindings
    ensures Explained(db.bindings[id], DoPasses(db, ps).bindings[id], Said(ps, id))
    decreases |ps|
  {
    hide DoPass, EntriesFor, Last8, Explained;
    if ps == [] {
      NothingSaid(db.bindings[id]);
    } else {
      var before, p := ps[..|ps| - 1], ps[|ps| - 1];
      assert p in ps && forall q :: q in before ==> q in ps;
      StatusIsLastVerdict(db, before, id);
      var mid := DoPasses(db, before);
      OneEachKept(db, mid, p);
      PassRow(mid, p, id);
      var es := if p.write then EntriesFor(p.run, p.results, id) else [];
      assert Said(ps, id) == Said(before, id) + es;
      if es == [] {
        assert Said(before, id) + es == Said(before, id);
      } else {
        assert es == [es[0]];
        ExplainedMore(db.bindings[id], mid.bindings[id], DoPasses(db, ps).bindings[id], Said(before, id), es[0]);
      }
    }
  }

  lemma NothingSaid(x: Row)
    ensures Explained(x, x, [])
  {
  }

  lemma OneEachKept(db: Db, mid: Db, p: Pass)
    requires OneEach(db, p) && mid.bindings.Keys == db.bindings.Keys
    ensures OneEach(mid, p)
  {
  }

  /******* Where the law stops: rows read too early *******/

  /** A pass that read its rows when only the first `readAt` of the passes listed before it
      had written theirs. */
  datatype Late = Late(pass: Pass, readAt: nat)

  predicate InTime(ls: seq<Late>) { forall i :: 0 <= i < |ls| ==> ls[i].readAt <= i }

  /** The passes in the order of their writes, each from the rows it had read. */
  function LateRun(db: Db, ls: seq<Late>): (t: Db)
    ensures t.bindings.Keys == db.bindings.Keys
    decreases |ls|
  {
    if ls == [] then db
    else
      var n, l := |ls| - 1, ls[|ls| - 1];
      RecordAll(LateRun(db, ls[..n]), Reading(LateRun(db, ls[..Min(l.readAt, n)]), l.pass), l.pass.results)
  }

  function PassesOf(ls: seq<Late>): (ps: seq<Pass>)
    ensures |ps| == |ls|
  {
    seq(|ls|, i requires 0 <= i < |ls| => ls[i].pass)
  }

  /** Passes that read all earlier writes are passes that do not overlap. */
  lemma {:induction false} PromptRun(db: Db, ls: seq<Late>)
    requires forall i :: 0 <= i < |ls| ==> ls[i].readAt == i
    ensures LateRun(db, ls) == DoPasses(db, PassesOf(ls))
    decreases |ls|
  {
    hide RecordAll;
    if ls != [] {
      var n := |ls| - 1;
      PromptRun(db, ls[..n]);
      assert PassesOf(ls)[..n] == PassesOf(ls[..n]);
    }
  }

  /** What one pass says about one binding, and how much it had read. */
  datatype Turn = Turn(said: Option<Entry>, readAt: nat)

  datatype Brief = Brief(status: Status, history: seq<Entry>)

  function BriefOf(x: Row): Brief { Brief(x.status, x.history) }

  predicate Counts(read: Status, t: Turn) { t.said.Some? && (!t.said.value.status.Unverified? || read.Unverified?) }

  /** One binding under overlapping passes: a result that counts is written over the row
      its pass had read. */
  function Rewritten(x: Brief, ts: seq<Turn>): Brief
    decreases |ts|
  {
    if ts == [] then x
    else
      var n, t := |ts| - 1, ts[|ts| - 1];
      var read := Rewritten(x, ts[..Min(t.readAt, n)]);
      if Counts(read.status, t) then Brief(t.said.value.status, Last8(read.history + [t.said.value]))
      else Rewritten(x, ts[..n])
  }

  function TurnOf(l: Late, id: string): Turn {
    var es := if l.pass.write then EntriesFor(l.pass.run, l.pass.results, id) else [];
    Turn(if es == [] then None else Some(es[0]), l.readAt)
  }

  function Turns(ls: seq<Late>, id: string): (ts: seq<Turn>)
    ensures |ts| == |ls|
  {
    seq(|ls|, i requires 0 <= i < |ls| => TurnOf(ls[i], id))
  }

  /** Overlapping calls act on every binding of the database as `Rewritten` says. */
  lemma {:induction false} LateRow(db: Db, ls: seq<Late>, id: string)
    requires InTime(ls) && id in db.bindings && forall l :: l in ls ==> OneEach(db, l.pass)
    ensures BriefOf(LateRun(db, ls).bindings[id]) == Rewritten(BriefOf(db.bindings[id]), Turns(ls, id))
    decreases |ls|
  {
    hide RecordAll, EntriesFor, Last8, TurnOf, Counts, Reading, OneEach, LateRun, Rewritten, BriefOf;
    if ls == [] {
      assert ls == [];
      NoTurns(db, id);
    } else {
      var n, l := |ls| - 1, ls[|ls| - 1];
      LateRunStep(db, ls);
      assert l in ls && forall k :: k in ls[..n] ==> k in ls;
      assert forall k :: k in ls[..l.readAt] ==> k in ls;
      OneEachKept(db, LateRun(db, ls[..n]), l.pass);
      LateRow(db, ls[..n], id);
      LateRow(db, ls[..l.readAt], id);
      assert Turns(ls, id)[..n] == Turns(ls[..n], id);
      assert Turns(ls, id)[..l.readAt] == Turns(ls[..l.readAt], id);
      LatePassRow(LateRun(db, ls[..n]), LateRun(db, ls[..l.readAt]), l, id);
      assert Turns(ls, id)[n] == TurnOf(l, id);
      RewrittenStep(BriefOf(db.bindings[id]), Turns(ls, id));
    }
  }

  lemma NoTurns(db: Db, id: string)
    requires id in db.bindings
    ensures LateRun(db, []) == db && Rewritten(BriefOf(db.bindings[id]), Turns([], id)) == BriefOf(db.bindings[id])
  {
  }

  lemma LateRunStep(db: Db, ls: seq<Late>)
    requires ls != [] && ls[|ls| - 1].readAt < |ls|
    ensures var n, l := |ls| - 1, ls[|ls| - 1];
            LateRun(db, ls) ==
            RecordAll(LateRun(db, ls[..n]), Reading(LateRun(db, ls[..l.readAt]), l.pass), l.pass.results)
  {
  }

  lemma RewrittenStep(x: Brief, ts: seq<Turn>)
    requires ts != [] && ts[|ts| - 1].readAt < |ts|
    ensures var n, t := |ts| - 1, ts[|ts| - 1];
            var read := Rewritten(x, ts[..t.readAt]);
            Rewritten(x, ts) ==
            if Counts(read.status, t) then Brief(t.said.value.status, Last8(read.history + [t.said.value]))
            else Rewritten(x, ts[..n])
  {
  }

  lemma LatePassRow(now: Db, read: Db, l: Late, id: string)
    requires now.bindings.Keys == read.bindings.Keys && id in now.bindings && OneEach(now, l.pass)
    ensures TurnOf(l, id).readAt == l.readAt
    ensures var t, x := TurnOf(l, id), BriefOf(read.bindings[id]);
            BriefOf(RecordAll(now, Reading(read, l.pass), l.pass.results).bindings[id]) ==
            if Counts(x.status, t) then Brief(t.said.value.status, Last8(x.history + [t.said.value]))
            else BriefOf(now.bindings[id])
  {
    hide Last8;
    var p, c := l.pass, Reading(read, l.pass);
    RecordRow(now, c, p.results, id);
    EntriesOfOne(p.run, p.results, id);
    LastAppliedOfOne(c, p.results, id);
    if r :| r in p.results && r.id == id {
      assert Considered(c, r) && c.known[id] == read.bindings[id];
    }
  }

  function SaidBy(ts: seq<Turn>): seq<Entry>
    decreases |ts|
  {
    if ts == [] then []
    else SaidBy(ts[..|ts| - 1]) + if ts[|ts| - 1].said.Some? then [ts[|ts| - 1].said.value] else []
  }

  predicate RealVerdict(t: Turn) { t.said.Some? && !t.said.value.status.Unverified? }

  /** Turn `i` writes unverified over a verdict that its pass had not read. */
  predicate Erases(x: Brief, ts: seq<Turn>, i: nat)
    requires i < |ts|
  {
    && ts[i].said.Some? && ts[i].said.value.status.Unverified?
    && Rewritten(x, ts[..Min(ts[i].readAt, i)]).status.Unverified? && !Rewritten(x, ts[..i]).status.Unverified?
  }

  /** A verdict was erased, and none came after. */
  predicate VerdictLost(x: Brief, ts: seq<Turn>) {
    exists i :: 0 <= i < |ts| && Erases(x, ts, i) && forall j :: i < j < |ts| ==> !RealVerdict(ts[j])
  }

  lemma LostMore(x: Brief, ts: seq<Turn>)
    requires ts != []
    ensures var n := |ts| - 1;
            VerdictLost(x, ts) <==> Erases(x, ts, n) || (VerdictLost(x, ts[..n]) && !RealVerdict(ts[n]))
  {
    hide Rewritten, RealVerdict;
    var n := |ts| - 1;
    forall i | 0 <= i < n ensures Erases(x, ts, i) == Erases(x, ts[..n], i) {
      assert ts[..n][..i] == ts[..i];
      assert ts[..n][..Min(ts[i].readAt, i)] == ts[..Min(ts[i].readAt, i)];
    }
    if VerdictLost(x, ts[..n]) && !RealVerdict(ts[n]) {
      var i :| 0 <= i < n && Erases(x, ts[..n], i) && forall j :: i < j < n ==> !RealVerdict(ts[..n][j]);
      assert forall j :: i < j < n ==> ts[..n][j] == ts[j];
      assert Erases(x, ts, i);
    }
    if Erases(x, ts, n) {
      assert VerdictLost(x, ts);
    }
    if VerdictLost(x, ts) && !Erases(x, ts, n) {
      var i :| 0 <= i < |ts| && Erases(x, ts, i) && forall j :: i < j < |ts| ==> !RealVerdict(ts[j]);
      assert i < n && Erases(x, ts[..n], i);
      assert forall j :: i < j < n ==> ts[..n][j] == ts[j];
    }
  }

  /** The status law under any overlap: the status is the last verdict given, except that a
      verdict erased and not followed by another leaves unverified. */
  lemma {:induction false} LateStatusExactly(x: Brief, ts: seq<Turn>)
    ensures var given := Decided(x.status, SaidBy(ts));
            Rewritten(x, ts).status == if VerdictLost(x, ts) then Unverified else given
    ensures VerdictLost(x, ts) ==> !Decided(x.status, SaidBy(ts)).Unverified?
    decreases |ts|
  {
    hide Last8;
    if ts != [] {
      var n, t := |ts| - 1, ts[|ts| - 1];
      LateStatusExactly(x, ts[..n]);
      LostMore(x, ts);
      var before := SaidBy(ts[..n]);
      if t.said.Some? {
        DecidedMore(x.status, before, t.said.value);
      } else {
        assert before + [] == before;
      }
    }
  }

  lemma DecidedMore(initial: Status, es: seq<Entry>, e: Entry)
    ensures Decided(initial, es + [e]) == if e.status.Unverified? then Decided(initial, es) else e.status
  {
    assert (es + [e])[..|es|] == es;
  }

  /** The entries of a row's history: those its last write had read, and its own. */
  function Trail(x: Brief, ts: seq<Turn>): seq<Entry>
    decreases |ts|
  {
    if ts == [] then []
    else
      var n, t := |ts| - 1, ts[|ts| - 1];
      var seen := ts[..Min(t.readAt, n)];
      if Counts(Rewritten(x, seen).status, t) then Trail(x, seen) + [t.said.value] else Trail(x, ts[..n])
  }

  lemma {:induction false} LateHistory(x: Brief, ts: seq<Turn>)
    ensures Rewritten(x, ts).history == if Trail(x, ts) == [] then x.history else Last8(x.history + Trail(x, ts))
    decreases |ts|
  {
    hide Last8;
    if ts != [] {
      var n, t := |ts| - 1, ts[|ts| - 1];
      var seen := ts[..Min(t.readAt, n)];
      LateHistory(x, ts[..n]);
      LateHistory(x, seen);
      if Counts(Rewritten(x, seen).status, t) {
        var e := t.said.value;
        Last8Again(x.history + Trail(x, seen), e);
        assert x.history + (Trail(x, seen) + [e]) == (x.history + Trail(x, seen)) + [e];
        assert Trail(x, seen) == [] ==> x.history + (Trail(x, seen) + [e]) == x.history + [e];
      }
    }
  }

  predicate Written(x: Brief, ts: seq<Turn>, i: nat)
    requires i < |ts|
  {
    Counts(Rewritten(x, ts[..Min(ts[i].readAt, i)]).status, ts[i])
  }

  /** How many turns wrote the row. */
  function Writes(x: Brief, ts: seq<Turn>): nat
    decreases |ts|
  {
    if ts == [] then 0 else Writes(x, ts[..|ts| - 1]) + if Written(x, ts, |ts| - 1) then 1 else 0
  }

  /** Every turn that wrote had read the write before it. */
  predicate Serial(x: Brief, ts: seq<Turn>) {
    forall i, j :: 0 <= j < i < |ts| && Written(x, ts, i) && ts[i].readAt <= j ==> !Written(x, ts, j)
  }

  lemma WrittenPrefix(x: Brief, ts: seq<Turn>, n: nat, i: nat)
    requires i < n <= |ts|
    ensures Written(x, ts[..n], i) == Written(x, ts, i)
  {
    assert ts[..n][..Min(ts[i].readAt, i)] == ts[..Min(ts[i].readAt, i)];
  }

  /** Fewer turns, fewer writes; as many exactly when none of the later ones wrote. */
  lemma {:induction false} WritesPrefix(x: Brief, ts: seq<Turn>, k: nat)
    requires k <= |ts|
    ensures Writes(x, ts[..k]) <= Writes(x, ts)
    ensures Writes(x, ts[..k]) == Writes(x, ts) <==> forall j :: k <= j < |ts| ==> !Written(x, ts, j)
    decreases |ts|
  {
    hide Written;
    var n := |ts| - 1;
    if k == |ts| {
      assert ts[..k] == ts;
    } else {
      WritesPrefix(x, ts[..n], k);
      assert ts[..n][..k] == ts[..k];
      forall j | k <= j < n ensures Written(x, ts[..n], j) == Written(x, ts, j) {
        WrittenPrefix(x, ts, n, j);
      }
    }
  }

  lemma SerialPrefix(x: Brief, ts: seq<Turn>, k: nat)
    requires k <= |ts|
    ensures Serial(x, ts[..k]) <==>
            forall i, j :: 0 <= j < i < k && Written(x, ts, i) && ts[i].readAt <= j ==> !Written(x, ts, j)
  {
    hide Written;
    forall i | 0 <= i < k ensures Written(x, ts[..k], i) == Written(x, ts, i) {
      WrittenPrefix(x, ts, k, i);
    }
  }

  /** The history has an entry for every write exactly when every turn that wrote had read
      the write before it. */
  lemma {:induction false} HistoryCompleteExactly(x: Brief, ts: seq<Turn>)
    ensures |Trail(x, ts)| <= Writes(x, ts)
    ensures |Trail(x, ts)| == Writes(x, ts) <==> Serial(x, ts)
    decreases |ts|
  {
    hide Serial, Rewritten, Counts;
    if ts == [] {
      SerialPrefix(x, ts, 0);
      assert ts[..0] == ts;
    } else {
      var n, t := |ts| - 1, ts[|ts| - 1];
      var k := Min(t.readAt, n);
      HistoryCompleteExactly(x, ts[..n]);
      HistoryCompleteExactly(x, ts[..k]);
      SerialMore(x, ts);
      WritesPrefix(x, ts[..n], k);
      assert ts[..n][..k] == ts[..k];
    }
  }

  lemma SerialMore(x: Brief, ts: seq<Turn>)
    requires ts != []
    ensures var n := |ts| - 1;
            var k := Min(ts[n].readAt, n);
            Serial(x, ts) <==>
            if Written(x, ts, n)
            then Serial(x, ts[..k]) && forall j :: k <= j < n ==> !Written(x, ts[..n], j)
            else Serial(x, ts[..n])
  {
    hide Written;
    var n := |ts| - 1;
    var k := Min(ts[n].readAt, n);
    SerialPrefix(x, ts, n);
    SerialPrefix(x, ts, k);
    forall j | 0 <= j < n ensures Written(x, ts[..n], j) == Written(x, ts, j) {
      WrittenPrefix(x, ts, n, j);
    }
  }

  /** Any run of overlapping passes on one binding: its status is the last write-mode
      verdict unless that was erased by a pass that had not read it, and its history holds
      the last eight entries of the trail. */
  lemma OverlapExactly(db: Db, ls: seq<Late>, id: string)
    requires InTime(ls) && id in db.bindings && forall l :: l in ls ==> OneEach(db, l.pass)
    ensures var x, y, ts := BriefOf(db.bindings[id]), LateRun(db, ls).bindings[id], Turns(ls, id);
            && (y.status == Decided(x.status, Said(PassesOf(ls), id)) <==> !VerdictLost(x, ts))
            && (VerdictLost(x, ts) ==> y.status.Unverified?)
            && y.history == (if Trail(x, ts) == [] then x.history else Last8(x.history + Trail(x, ts)))
            && (|Trail(x, ts)| == Writes(x, ts) <==> Serial(x, ts))
  {
    hide Rewritten, Trail, Writes, Serial, VerdictLost, Decided, SaidBy, Said, OneEach, Last8;
    var x, ts := BriefOf(db.bindings[id]), Turns(ls, id);
    LateRow(db, ls, id);
    SaidByTurns(db, ls, id);
    LateStatusExactly(x, ts);
    LateHistory(x, ts);
    HistoryCompleteExactly(x, ts);
  }

  /** What the turns say is what the write-mode passes said. */
  lemma {:induction false} SaidByTurns(db: Db, ls: seq<Late>, id: string)
    requires forall l :: l in ls ==> OneEach(db, l.pass)
    ensures SaidBy(Turns(ls, id)) == Said(PassesOf(ls), id)
    decreases |ls|
  {
    hide EntriesFor;
    if ls != [] {
      var n, l := |ls| - 1, ls[|ls| - 1];
      assert l in ls && forall k :: k in ls[..n] ==> k in ls;
      SaidByTurns(db, ls[..n], id);
      assert Turns(ls, id)[..n] == Turns(ls[..n], id);
      assert PassesOf(ls)[..n] == PassesOf(ls[..n]);
      EntriesOfOne(l.pass.run, l.pass.results, id);
      assert l.pass.results != [] ==> l.pass.results[0] in l.pass.results;
    }
  }

  /** A verified verdict, then the unverified one of a pass that read before it. */
  lemma VerdictErased(x: Brief, score: real, time: int)
    requires x.status.Unverified?
    ensures var ts := [Turn(Some(Entry("a", Verified, score, time)), 0),
                       Turn(Some(Entry("b", Unverified, score, time)), 0)];
            Rewritten(x, ts).status.Unverified? && Decided(x.status, SaidBy(ts)).Verified?
  {
    var ts := [Turn(Some(Entry("a", Verified, score, time)), 0), Turn(Some(Entry("b", Unverified, score, time)), 0)];
    assert ts[..1] == [ts[0]] && ts[..1][..0] == [];
    assert SaidBy(ts[..1]) == [ts[0].said.value];
    DecidedMore(x.status, [], ts[0].said.value);
    DecidedMore(x.status, [ts[0].said.value], ts[1].said.value);
  }

  /******* The batched writer *******/

  /** The row of an orphan is gone: the foreign key rejects its check. */
  predicate Orphan(db: Db, c: Session, r: Result) { Considered(c, r) && r.id !in db.bindings }

  function FirstOrphan(db: Db, c: Session, results: seq<Result>): (k: nat)
    ensures k <= |results|
    ensures forall i :: 0 <= i < k ==> !Orphan(db, c, results[i])
    ensures k < |results| ==> Orphan(db, c, results[k])
  {
    if results == [] then 0
    else if Orphan(db, c, results[0]) then 0
    else
      var rest := FirstOrphan(db, c, results[1..]);
      assert forall i :: 0 < i < rest + 1 ==> results[i] == results[1..][i - 1];
      1 + rest
  }

  const BATCH := 500

  datatype Counters = Counters(applied: nat, skipped: nat, byStatus: multiset<Status>)

  function CountOne(n: Counters, c: Session, r: Result): Counters {
    if !Considered(c, r) then n
    else if Applies(c, c.known[r.id], r) then Counters(n.applied + 1, n.skipped, n.byStatus + multiset{r.status})
    else Counters(n.applied, n.skipped + 1, n.byStatus + multiset{r.status})
  }

  function CountAll(c: Session, results: seq<Result>): Counters
    decreases |results|
  {
    if results == [] then Counters(0, 0, multiset{})
    else CountOne(CountAll(c, results[..|results| - 1]), c, results[|results| - 1])
  }

  /** Every considered result is counted once as applied or skipped and once by status;
      a dry run applies none. */
  lemma {:induction false} CountersAddUp(c: Session, results: seq<Result>)
    ensures var n := CountAll(c, results);
            n.applied + n.skipped == |n.byStatus| && (!c.apply ==> n.applied == 0)
    decreases |results|
  {
    if results != [] {
      CountersAddUp(c, results[..|results| - 1]);
    }
  }

  /** The places of the results that were considered and applied, or considered and not. */
  function Places(c: Session, results: seq<Result>, applied: bool): set<nat> {
    set i | 0 <= i < |results| && results[i].id != "" && results[i].id in c.known
            && applied == (c.apply && (results[i].status != Unverified
                                       || c.known[results[i].id].status == Unverified))
  }

  function PlacesWith(c: Session, results: seq<Result>, status: Status): set<nat> {
    set i | 0 <= i < |results| && results[i].id != "" && results[i].id in c.known && results[i].status == status
  }

  /** Each counter is a number of places in the list of results. */
  lemma {:induction false} CountersExactly(c: Session, results: seq<Result>, status: Status)
    ensures var n := CountAll(c, results);
            && n.applied == |Places(c, results, true)| && n.skipped == |Places(c, results, false)|
            && n.byStatus[status] == |PlacesWith(c, results, status)|
    decreases |results|
  {
    hide Places, PlacesWith;
    NoPlaces(c, status);
    if results != [] {
      var n, r := |results| - 1, results[|results| - 1];
      var before := results[..n];
      CountersExactly(c, before, status);
      assert results == before + [r];
      PlacesMore(c, before, r, true);
      PlacesMore(c, before, r, false);
      PlacesWithMore(c, before, r, status);
    }
  }

  lemma NoPlaces(c: Session, status: Status)
    ensures Places(c, [], true) == {} && Places(c, [], false) == {} && PlacesWith(c, [], status) == {}
  {
  }

  lemma PlacesMore(c: Session, before: seq<Result>, r: Result, applied: bool)
    ensures |Places(c, before + [r], applied)|
            == |Places(c, before, applied)|
               + if Considered(c, r) && applied == Applies(c, c.known[r.id], r) then 1 else 0
  {
    var n, results := |before|, before + [r];
    var now, was := Places(c, results, applied), Places(c, before, applied);
    forall i ensures i in now <==> i in was || (i == n && i in now) {
      assert 0 <= i < n ==> results[i] == before[i];
    }
    assert n !in was && (n in now <==> Considered(c, r) && applied == Applies(c, c.known[r.id], r));
    assert now == was + if n in now then {n} else {};
  }

  lemma PlacesWithMore(c: Session, before: seq<Result>, r: Result, status: Status)
    ensures |PlacesWith(c, before + [r], status)|
            == |PlacesWith(c, before, status)| + if Considered(c, r) && r.status == status then 1 else 0
  {
    var n, results := |before|, before + [r];
    var now, was := PlacesWith(c, results, status), PlacesWith(c, before, status);
    forall i ensures i in now <==> i in was || (i == n && i in now) {
      assert 0 <= i < n ==> results[i] == before[i];
    }
    assert n !in was && (n in now <==> Considered(c, r) && r.status == status);
    assert now == was + if n in now then {n} else {};
  }

  class VerificationStore {
    var bindings: map<string, Row>
    var checks: map<(string, string), Detail>

    function State(): Db
      reads this
    {
      Db(bindings, checks)
    }

    constructor (bindings: map<string, Row>)
      ensures State() == Db(bindings, map[])
    {
      this.bindings, checks := bindings, map[];
    }

    /** Batches of 500, each in its own transaction: a failing batch is rolled back whole
        and the batches before it stay. */
    method RecordResults(c: Session, results: seq<Result>) returns (counters: Counters, ok: bool)
      modifies this
      ensures ok <==> forall r :: r in results ==> !Orphan(old(State()), c, r)
      ensures ok ==> State() == RecordAll(old(State()), c, results) && counters == CountAll(c, results)
      ensures !ok ==> var k := FirstOrphan(old(State()), c, results);
                      State() == RecordAll(old(State()), c, results[..k - k % BATCH])
    {
      hide RecordOne, CountOne, Orphan;
      ghost var db := State();
      counters := Counters(0, 0, multiset{});
      var offset := 0;
      while offset < |results|
        invariant offset % BATCH == 0
        invariant var done := Min(offset, |results|);
                  State() == RecordAll(db, c, results[..done]) && counters == CountAll(c, results[..done])
                  && forall i :: 0 <= i < done ==> !Orphan(db, c, results[i])
      {
        counters, ok := RecordBatch(db, c, results, offset, Min(offset + BATCH, |results|), counters);
        if !ok {
          return;
        }
        offset := offset + BATCH;
      }
      assert results[..|results|] == results;
      ok := true;
    }

    /** One transaction. */
    method RecordBatch(ghost db: Db, c: Session, results: seq<Result>, offset: nat, end: nat, before: Counters)
      returns (counters: Counters, ok: bool)
      requires offset < end <= |results| && end <= offset + BATCH && offset % BATCH == 0
      requires State() == RecordAll(db, c, results[..offset]) && before == CountAll(c, results[..offset])
      requires forall i :: 0 <= i < offset ==> !Orphan(db, c, results[i])
      modifies this
      ensures ok ==> State() == RecordAll(db, c, results[..end]) && counters == CountAll(c, results[..end])
                     && forall i :: 0 <= i < end ==> !Orphan(db, c, results[i])
      ensures !ok ==> State() == old(State()) && var k := FirstOrphan(db, c, results);
                      k < |results| && results[k] in results && Orphan(db, c, results[k]) && k - k % BATCH == offset
    {
      hide RecordOne, CountOne, Considered, FirstOrphan, RecordAll, CountAll;
      var saved := State();
      counters := before;
      var i := offset;
      while i < end
        invariant offset <= i <= end
        invariant State() == RecordAll(db, c, results[..i]) && counters == CountAll(c, results[..i])
        invariant forall j :: 0 <= j < i ==> !Orphan(db, c, results[j])
      {
        if Considered(c, results[i]) && results[i].id !in bindings {
          OrphanAt(db, c, results, i, offset);
          bindings, checks := saved.bindings, saved.checks;
          return counters, false;
        }
        RecordStep(db, c, results, i);
        var after := RecordOne(State(), c, results[i]);
        bindings, checks := after.bindings, after.checks;
        counters := CountOne(counters, c, results[i]);
        i := i + 1;
      }
      ok := true;
    }
  }

  lemma RecordStep(db: Db, c: Session, results: seq<Result>, i: nat)
    requires i < |results|
    ensures RecordAll(db, c, results[..i + 1]) == RecordOne(RecordAll(db, c, results[..i]), c, results[i])
    ensures CountAll(c, results[..i + 1]) == CountOne(CountAll(c, results[..i]), c, results[i])
  {
    hide RecordOne, CountOne;
    assert results[..i + 1][..i] == results[..i];
  }

  lemma OrphanAt(db: Db, c: Session, results: seq<Result>, i: nat, offset: nat)
    requires i < |results| && Orphan(db, c, results[i]) && forall j :: 0 <= j < i ==> !Orphan(db, c, results[j])
    requires offset % BATCH == 0 && offset <= i < offset + BATCH
    ensures FirstOrphan(db, c, results) == i && i - i % BATCH == offset && results[i] in results
  {
    hide Orphan;
    var k := FirstOrphan(db, c, results);
    assert k <= i;
  }
}
