/** Bounded two-sided context assembly (src/codememory/extraction/context.py:52-220). */
module Context {
  import opened Base

  /** A timeline row: its stripped id and its payload text; `rest` is every other
      column the projection reads. */
  datatype Row = Row(id: string, text: string, rest: string)

  datatype Projection = Projection(row: Row, text: string)

  datatype Assembled = Assembled(events: seq<Projection>, truncated: bool)

  const MARKER := "\n[…event text truncated…]"

  /** The rows that stay when blank and repeated ids are dropped. */
  function Unique(rows: seq<Row>): seq<Row>
    decreases |rows|
  {
    if rows == [] then []
    else
      var before := Unique(rows[..|rows| - 1]);
      var last := rows[|rows| - 1];
      if last.id == "" || last.id in Ids(before) then before else before + [last]
  }

  function Ids(rows: seq<Row>): set<string> {
    set r | r in rows :: r.id
  }

  /** Each id once, in first-occurrence order, and no id lost. */
  lemma {:induction false} UniqueExact(rows: seq<Row>)
    ensures forall i, k :: 0 <= i < k < |Unique(rows)| ==> Unique(rows)[i].id != Unique(rows)[k].id
    ensures Ids(Unique(rows)) == Ids(rows) - {""}
    decreases |rows|
  {
    if rows != [] {
      var before := rows[..|rows| - 1];
      var last := rows[|rows| - 1];
      UniqueExact(before);
      assert rows == before + [last];
      assert Ids(rows) == Ids(before) + {last.id};
      if last.id != "" && last.id !in Ids(Unique(before)) {
        assert Ids(Unique(before) + [last]) == Ids(Unique(before)) + {last.id};
        forall i | 0 <= i < |Unique(before)| ensures Unique(before)[i].id != last.id {
          assert Unique(before)[i].id in Ids(Unique(before));
        }
      }
    }
  }

  function Sum(sizes: seq<nat>): nat {
    if sizes == [] then 0 else Sum(sizes[..|sizes| - 1]) + sizes[|sizes| - 1]
  }

  /** `k` items taken in order: always the first, then while the budget lasts. */
  predicate Greedy(sizes: seq<nat>, budget: int, k: nat) {
    && k <= |sizes|
    && (sizes != [] ==> 0 < k)
    && (forall j :: 2 <= j <= k ==> Sum(sizes[..j]) <= budget)
    && (k < |sizes| ==> Sum(sizes[..k + 1]) > budget)
  }

  /** The budget rule leaves no choice. */
  lemma GreedyUnique(sizes: seq<nat>, budget: int, j: nat, k: nat)
    requires Greedy(sizes, budget, j) && Greedy(sizes, budget, k)
    ensures j == k
  {
  }

  /** What is taken overshoots the budget only by a first item larger than it. */
  lemma GreedyWithin(sizes: seq<nat>, budget: nat, k: nat)
    requires Greedy(sizes, budget, k) && sizes != []
    ensures Sum(sizes[..k]) <= Max(budget, sizes[0])
  {
    if k == 1 {
      assert sizes[..1][..0] == [];
      assert sizes[..1] == [sizes[0]];
    }
  }

  function Reverse<T>(s: seq<T>): seq<T> {
    seq(|s|, i requires 0 <= i < |s| => s[|s| - 1 - i])
  }

  lemma {:induction false} SumAppend(a: seq<nat>, b: seq<nat>)
    ensures Sum(a + b) == Sum(a) + Sum(b)
    decreases |b|
  {
    if b == [] {
      assert a + b == a;
    } else {
      assert (a + b)[..|a + b| - 1] == a + b[..|b| - 1];
      SumAppend(a, b[..|b| - 1]);
    }
  }

  lemma {:induction false} SumReverse(s: seq<nat>)
    ensures Sum(Reverse(s)) == Sum(s)
    decreases |s|
  {
    if s != [] {
      var last := s[|s| - 1];
      assert Reverse(s) == [last] + Reverse(s[..|s| - 1]);
      SumReverse(s[..|s| - 1]);
      SumAppend([last], Reverse(s[..|s| - 1]));
      assert [last][..0] == [];
    }
  }

  class ContextAssembler {
    const maxEvents: nat
    const maxChars: nat
    const maxEventChars: nat
    /** Length of the JSON text of a projection, quality overlay included. */
    const size: Projection -> nat

    constructor (maxEvents: int, maxChars: int, maxEventChars: int, size: Projection -> nat)
      ensures 1 <= this.maxEvents <= 5000 && 1000 <= this.maxChars <= 2000000 && 200 <= this.maxEventChars <= 100000
      ensures this.size == size
    {
      this.maxEvents := Max(1, Min(maxEvents, 5000));
      this.maxChars := Max(1000, Min(maxChars, 2000000));
      this.maxEventChars := Max(200, Min(maxEventChars, 100000));
      this.size := size;
    }

    ghost predicate Valid() { 1 <= maxEvents && 1000 <= maxChars }

    function Cut(r: Row): Projection {
      Projection(r, if |r.text| > maxEventChars then r.text[..maxEventChars] + MARKER else r.text)
    }

    function CutAll(rows: seq<Row>): seq<Projection> {
      seq(|rows|, i requires 0 <= i < |rows| => Cut(rows[i]))
    }

    function Sizes(ps: seq<Projection>): seq<nat> {
      seq(|ps|, i requires 0 <= i < |ps| => size(ps[i]))
    }

    function HeadCount(window: nat): nat {
      Min(Min(Max(if window > 1 then 2 else 1, window / 3), 120), window)
    }

    function HeadBudget(): nat { Max(1, maxChars / 3) }

    function TailBudget(): nat { Max(1, maxChars - HeadBudget()) }

    method Dedupe(rows: seq<Row>) returns (unique: seq<Row>)
      ensures unique == Unique(rows)
    {
      unique := [];
      var seen: set<string> := {};
      var i := 0;
      while i < |rows|
        invariant i <= |rows| && unique == Unique(rows[..i]) && seen == Ids(unique)
      {
        assert rows[..i + 1][..i] == rows[..i];
        if rows[i].id != "" && rows[i].id !in seen {
          assert Ids(unique + [rows[i]]) == Ids(unique) + {rows[i].id};
          seen := seen + {rows[i].id};
          unique := unique + [rows[i]];
        }
        i := i + 1;
      }
      assert rows[..i] == rows;
    }

    /** The rows inside the event limit: all of them, or a head and a tail. */
    method Window(unique: seq<Row>) returns (window: seq<Row>, truncated: bool)
      requires Valid()
      ensures truncated == (|unique| > maxEvents) && window == Windowed(unique)
    {
      truncated := |unique| > maxEvents;
      if truncated {
        var head := HeadCount(maxEvents);
        var tail := maxEvents - head;
        window := unique[..head];
        if tail > 0 {
          window := window + unique[|unique| - tail..];
        }
      } else {
        window := unique;
      }
    }

    method Project(window: seq<Row>, before: bool) returns (ps: seq<Projection>, truncated: bool)
      ensures ps == CutAll(window)
      ensures truncated <==> before || exists r :: r in window && |r.text| > maxEventChars
    {
      ps, truncated := [], before;
      var i := 0;
      while i < |window|
        invariant i <= |window| && ps == CutAll(window[..i])
        invariant truncated <==> before || exists r :: r in window[..i] && |r.text| > maxEventChars
      {
        assert window[..i + 1] == window[..i] + [window[i]];
        if |window[i].text| > maxEventChars {
          truncated := true;
        }
        ps := ps + [Cut(window[i])];
        i := i + 1;
      }
      assert window[..i] == window;
    }

    /** The loop shared by head, tail and plain selection. */
    method TakeWithin(ps: seq<Projection>, budget: int) returns (k: nat, stopped: bool)
      ensures Greedy(Sizes(ps), budget, k)
      ensures stopped <==> k < |ps|
    {
      k, stopped := 0, false;
      var used := 0;
      while k < |ps|
        invariant k <= |ps| && used == Sum(Sizes(ps)[..k])
        invariant forall j :: 2 <= j <= k ==> Sum(Sizes(ps)[..j]) <= budget
      {
        assert Sizes(ps)[..k + 1][..k] == Sizes(ps)[..k];
        if k > 0 && used + size(ps[k]) > budget {
          return k, true;
        }
        used := used + size(ps[k]);
        k := k + 1;
      }
    }

    /** `h` first and `t` last projections of the timeline, disjoint and in order. */
    ghost predicate Ends(unique: seq<Row>, events: seq<Projection>, h: nat, t: nat) {
      h + t <= |unique| && events == CutAll(unique)[..h] + CutAll(unique)[|unique| - t..]
    }

    ghost predicate Bounded(unique: seq<Row>, events: seq<Projection>) {
      && unique != [] && events != [] && events[0] == Cut(unique[0]) && |events| <= maxEvents
      && exists h: nat, t: nat :: Ends(unique, events, h, t)
    }

    /** Nothing dropped and nothing cut. */
    ghost predicate Whole(unique: seq<Row>, events: seq<Projection>) {
      |events| == |unique| && forall i :: 0 <= i < |unique| ==> events[i] == Projection(unique[i], unique[i].text)
    }

    /** `h` and `t` are what the two budgets let the head/tail branch keep of `ps`. */
    ghost predicate Kept(ps: seq<Projection>, events: seq<Projection>, h: nat, t: nat) {
      && h + t <= |ps| && events == ps[..h] + ps[|ps| - t..]
      && Greedy(Sizes(ps)[..HeadCount(|ps|)], HeadBudget(), h)
      && Greedy(Reverse(Sizes(ps)[HeadCount(|ps|)..]), TailBudget(), t)
    }

    ghost predicate TwoSided(ps: seq<Projection>, events: seq<Projection>) {
      exists h: nat, t: nat :: Kept(ps, events, h, t)
    }

    /** The projections the limits leave to select from. */
    function Windowed(unique: seq<Row>): seq<Row>
      requires Valid()
    {
      if |unique| <= maxEvents then unique
      else
        assert HeadCount(maxEvents) <= maxEvents;
        unique[..HeadCount(maxEvents)] + unique[|unique| - (maxEvents - HeadCount(maxEvents))..]
    }

    method SelectEnds(ps: seq<Projection>) returns (selected: seq<Projection>, ghost h: nat, ghost t: nat)
      requires |ps| > 1 && |ps| <= maxEvents
      ensures 0 < h <= HeadCount(|ps|) && t <= |ps| - HeadCount(|ps|) && Kept(ps, selected, h, t)
    {
      var window := Min(maxEvents, |ps|);
      var head := HeadCount(window);
      var tail := window - head;
      assert Sizes(ps[..head]) == Sizes(ps)[..head];
      var a, cutA := TakeWithin(ps[..head], HeadBudget());
      assert Sizes(Reverse(ps[|ps| - tail..])) == Reverse(Sizes(ps)[head..]);
      var b, cutB := TakeWithin(Reverse(ps[|ps| - tail..]), TailBudget());
      selected := ps[..a] + ps[|ps| - b..];
      h, t := a, b;
    }

    /** The two ends of the window are two ends of the timeline. */
    lemma EndsOfWindow(unique: seq<Row>, w: seq<Row>, selected: seq<Projection>, h: nat, t: nat)
      requires Valid() && unique != [] && 0 < h && w == Windowed(unique)
      requires h + t <= |w| && selected == CutAll(w)[..h] + CutAll(w)[|w| - t..]
      requires |unique| > maxEvents ==> h <= HeadCount(maxEvents) && t <= maxEvents - HeadCount(maxEvents)
      ensures Bounded(unique, selected)
    {
      hide HeadCount, Cut;
      HeadCountBounds(maxEvents);
      WindowedLength(unique);
      if |unique| > maxEvents {
        hide Windowed;
        var a := HeadCount(maxEvents);
        assert w == unique[..a] + unique[|unique| - (maxEvents - a)..] by { WindowedDropped(unique); }
        EndsOfEnds(unique, w, selected, a, maxEvents - a, h, t);
      } else {
        assert Ends(unique, selected, h, t);
      }
    }

    lemma WindowedLength(unique: seq<Row>)
      requires Valid()
      ensures |Windowed(unique)| == Min(|unique|, maxEvents)
      ensures unique != [] ==> Windowed(unique) != [] && Windowed(unique)[0] == unique[0]
    {
    }

    lemma WindowedDropped(unique: seq<Row>)
      requires Valid() && |unique| > maxEvents
      ensures HeadCount(maxEvents) <= maxEvents
      ensures Windowed(unique) ==
              unique[..HeadCount(maxEvents)] + unique[|unique| - (maxEvents - HeadCount(maxEvents))..]
    {
    }

    lemma EndsOfEnds(unique: seq<Row>, w: seq<Row>, selected: seq<Projection>, a: nat, b: nat, h: nat, t: nat)
      requires a + b <= |unique| && w == unique[..a] + unique[|unique| - b..] && h <= a && t <= b
      requires selected == CutAll(w)[..h] + CutAll(w)[|w| - t..]
      ensures Ends(unique, selected, h, t)
    {
      CutEnds(w, h, t);
      CutEnds(unique, h, t);
      assert w[..h] == unique[..h];
      assert w[|w| - t..] == unique[|unique| - t..];
    }

    lemma HeadCountBounds(window: nat)
      ensures 0 <= HeadCount(window) <= window && (0 < window ==> 0 < HeadCount(window))
    {
    }

    lemma CutEnds(rows: seq<Row>, h: nat, t: nat)
      requires h <= |rows| && t <= |rows|
      ensures CutAll(rows)[..h] == CutAll(rows[..h]) && CutAll(rows)[|rows| - t..] == CutAll(rows[|rows| - t..])
    {
    }

    /** A text that is too long is cut to the limit and marked; any other is kept whole. */
    lemma CutExactly(r: Row)
      ensures Cut(r).row == r
      ensures |r.text| <= maxEventChars ==> Cut(r).text == r.text
      ensures |r.text| > maxEventChars ==>
                && |Cut(r).text| == maxEventChars + |MARKER| && Cut(r).text[..maxEventChars] == r.text[..maxEventChars]
                && Cut(r).text[maxEventChars..] == MARKER
    {
    }

    /** The head takes a third of the window, but at least two rows and at most 120; of the
        characters it takes a third as well, and the tail the rest. */
    lemma HeadExactly(window: nat)
      requires Valid()
      ensures HeadCount(window) ==
              if window <= 2 then window else if window < 9 then 2 else if window < 360 then window / 3 else 120
      ensures 3 * HeadBudget() <= maxChars < 3 * HeadBudget() + 3 && HeadBudget() + TailBudget() == maxChars
    {
    }

    /** A window of three rows or more still ends with the timeline's last row. */
    lemma WindowKeepsLast(unique: seq<Row>)
      requires Valid() && |Windowed(unique)| >= 3
      ensures Windowed(unique)[0] == unique[0]
      ensures Windowed(unique)[|Windowed(unique)| - 1] == unique[|unique| - 1]
    {
      assert 0 < HeadCount(maxEvents);
    }

    /** Assembles one task's timeline, or refuses an empty one: a bounded, ordered
        choice of its two ends; the whole of it when not flagged truncated; and the
        greedy two-sided choice when the window or a text was already cut. */
    method Assemble(rows: seq<Row>) returns (r: Option<Assembled>)
      requires Valid()
      ensures r.None? <==> Unique(rows) == []
      ensures r.Some? ==> Bounded(Unique(rows), r.value.events)
      ensures r.Some? && !r.value.truncated ==> Whole(Unique(rows), r.value.events)
      ensures var window := Windowed(Unique(rows));
              (|Unique(rows)| > maxEvents || exists u :: u in window && |u.text| > maxEventChars) && |window| > 1
              ==> r.Some? && r.value.truncated && TwoSided(CutAll(window), r.value.events)
    {
      hide Greedy, Bounded;
      var unique := Dedupe(rows);
      var window, dropped := Window(unique);
      var ps, truncated := Project(window, dropped);
      if truncated && |ps| > 1 {
        var selected;
        ghost var h, t;
        selected, h, t := SelectEnds(ps);
        EndsOfWindow(unique, window, selected, h, t);
        r := Some(Assembled(selected, true));
      } else {
        var k, stopped := TakeWithin(ps, maxChars);
        if ps == [] {
          return None;
        }
        TakesOne(Sizes(ps), maxChars, k);
        EndsOfWindow(unique, window, ps[..k], k, 0);
        r := Some(Assembled(ps[..k], truncated || stopped));
      }
    }

    /** In head/tail mode with three projections or more the last one is kept, and
        the total exceeds the two budgets, which sum to `maxChars`, only by an
        oversized first or last projection. */
    lemma TwoSidedWithin(ps: seq<Projection>, events: seq<Projection>)
      requires Valid() && |ps| >= 3 && TwoSided(ps, events)
      ensures events != [] && events[0] == ps[0] && events[|events| - 1] == ps[|ps| - 1]
      ensures Sum(Sizes(events)) <= Max(HeadBudget(), size(ps[0])) + Max(TailBudget(), size(ps[|ps| - 1]))
      ensures HeadBudget() + TailBudget() == maxChars
    {
      hide Greedy, Sum;
      var n := |ps|;
      var h: nat, t: nat :| Kept(ps, events, h, t);
      HeadWithin(ps, h);
      TailWithin(ps, t);
      assert Sizes(events) == Sizes(ps[..h]) + Sizes(ps[n - t..]);
      SumAppend(Sizes(ps[..h]), Sizes(ps[n - t..]));
    }

    lemma HeadWithin(ps: seq<Projection>, h: nat)
      requires Valid() && |ps| >= 3 && Greedy(Sizes(ps)[..HeadCount(|ps|)], HeadBudget(), h)
      ensures 0 < h <= |ps| && Sum(Sizes(ps[..h])) <= Max(HeadBudget(), size(ps[0]))
    {
      hide Sum;
      var sizes := Sizes(ps)[..HeadCount(|ps|)];
      GreedyWithin(sizes, HeadBudget(), h);
      assert sizes[..h] == Sizes(ps[..h]);
    }

    lemma TailWithin(ps: seq<Projection>, t: nat)
      requires Valid() && |ps| >= 3 && Greedy(Reverse(Sizes(ps)[HeadCount(|ps|)..]), TailBudget(), t)
      ensures 0 < t <= |ps| && Sum(Sizes(ps[|ps| - t..])) <= Max(TailBudget(), size(ps[|ps| - 1]))
    {
      hide Sum;
      var sizes := Reverse(Sizes(ps)[HeadCount(|ps|)..]);
      GreedyWithin(sizes, TailBudget(), t);
      assert sizes[..t] == Reverse(Sizes(ps[|ps| - t..]));
      SumReverse(Sizes(ps[|ps| - t..]));
    }
  }

  lemma TakesOne(sizes: seq<nat>, budget: int, k: nat)
    requires Greedy(sizes, budget, k) && sizes != []
    ensures 0 < k <= |sizes|
  {
  }
}
