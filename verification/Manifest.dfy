/** Normalising and merging provider manifests
    (src/codememory/verification/models.py:291-384, src/codememory/verification/service.py:138-181). */
module Manifest {
  import opened Base

  /** In the text order of their names. */
  datatype Provider = CodebaseMemory | Composite | Filesystem | P4

  datatype Status = Ready | Partial | Failed | Unavailable

  datatype File = File(path: string, present: bool, head: string, have: string, rest: string, source: Option<Provider>)

  /** "" stands for a missing revision, qualified name or path. */
  datatype Symbol = Symbol(name: string, qualified: string, path: string, present: bool, rest: string,
                           source: Option<Provider>)

  datatype Manifest = Manifest(provider: Provider, project: string, root: string, revision: string, sourceRef: string,
                               status: Status, files: seq<File>, symbols: seq<Symbol>, metadata: map<string, string>,
                               capturedAt: int)

  /** Content hashing (its values in text order) and path normalisation under a root. */
  datatype Rules = Rules(hash: Manifest -> int, path: (string, string) -> string)

  datatype Merged = Merged(project: string, root: string, revisions: seq<string>, sources: seq<Provider>,
                           status: Status,
                           files: seq<File>, symbols: seq<Symbol>, statuses: map<Provider, Status>,
                           hashes: map<Provider, int>)

  /******* First wins *******/

  /** `dict.setdefault` in a loop: the first value of every key, in order of arrival. */
  function KeepFirst<K(==), V>(items: seq<(K, V)>): seq<(K, V)>
    decreases |items|
  {
    if items == [] then []
    else
      var before, last := KeepFirst(items[..|items| - 1]), items[|items| - 1];
      if HasKey(before, last.0) then before else before + [last]
  }

  predicate HasKey<K(==), V>(items: seq<(K, V)>, key: K) {
    exists i :: 0 <= i < |items| && items[i].0 == key
  }

  /** `e` is the first item of its key. */
  predicate FirstOfKey<K(==), V(==)>(items: seq<(K, V)>, e: (K, V)) {
    exists i :: 0 <= i < |items| && items[i] == e && forall j :: 0 <= j < i ==> items[j].0 != e.0
  }

  lemma {:induction false} KeepFirstExact<K, V>(items: seq<(K, V)>, e: (K, V))
    ensures e in KeepFirst(items) <==> FirstOfKey(items, e)
    ensures HasKey(KeepFirst(items), e.0) <==> HasKey(items, e.0)
    decreases |items|
  {
    if items != [] {
      var n := |items| - 1;
      var before, last := items[..n], items[n];
      KeepFirstExact(before, e);
      KeepFirstExact(before, last);
      assert items == before + [last];
      assert HasKey(items, e.0) <==> HasKey(before, e.0) || last.0 == e.0;
      FirstOfMore(before, last, e);
      HasKeyMore(KeepFirst(before), last, e.0);
    }
  }

  lemma HasKeyMore<K, V>(items: seq<(K, V)>, last: (K, V), key: K)
    ensures HasKey(items + [last], key) <==> HasKey(items, key) || last.0 == key
  {
    var all := items + [last];
    if i :| 0 <= i < |items| && items[i].0 == key {
      assert all[i].0 == key;
    }
    if last.0 == key {
      assert all[|items|].0 == key;
    }
  }

  lemma FirstOfMore<K, V>(items: seq<(K, V)>, last: (K, V), e: (K, V))
    ensures FirstOfKey(items + [last], e) <==> FirstOfKey(items, e) || (e == last && !HasKey(items, last.0))
  {
    var all := items + [last];
    assert forall j :: 0 <= j < |items| ==> all[j] == items[j];
    if i :| 0 <= i < |items| && items[i] == e && forall j :: 0 <= j < i ==> items[j].0 != e.0 {
      assert all[i] == e && forall j :: 0 <= j < i ==> all[j].0 != e.0;
    }
    if e == last && !HasKey(items, last.0) {
      assert all[|items|] == e && forall j :: 0 <= j < |items| ==> all[j].0 != e.0;
    }
    if FirstOfKey(all, e) {
      var i :| 0 <= i < |all| && all[i] == e && forall j :: 0 <= j < i ==> all[j].0 != e.0;
      if i < |items| {
        assert items[i] == e && forall j :: 0 <= j < i ==> items[j].0 != e.0;
      } else {
        assert forall j :: 0 <= j < |items| ==> all[j].0 != e.0;
      }
    }
  }

  /** The first value of a key. */
  function Get<K(==), V>(items: seq<(K, V)>, key: K): Option<V>
    decreases |items|
  {
    if items == [] then None
    else
      var before, last := Get(items[..|items| - 1], key), items[|items| - 1];
      if before.None? && last.0 == key then Some(last.1) else before
  }

  ghost predicate SameGets<K(!new), V>(x: seq<(K, V)>, y: seq<(K, V)>) {
    forall k :: Get(x, k) == Get(y, k)
  }

  lemma SameGetsAt<K(!new), V>(x: seq<(K, V)>, y: seq<(K, V)>, k: K)
    requires SameGets(x, y)
    ensures Get(x, k) == Get(y, k)
  {
  }

  lemma {:induction false} GetAppend<K, V>(a: seq<(K, V)>, b: seq<(K, V)>, key: K)
    ensures Get(a + b, key) == if Get(a, key).Some? then Get(a, key) else Get(b, key)
    decreases |b|
  {
    if b == [] {
      assert a + b == a;
    } else {
      assert (a + b)[..|a + b| - 1] == a + b[..|b| - 1];
      GetAppend(a, b[..|b| - 1], key);
    }
  }

  lemma {:induction false} GetHas<K, V>(items: seq<(K, V)>, key: K)
    ensures Get(items, key).Some? <==> HasKey(items, key)
    decreases |items|
  {
    if items != [] {
      var before, last := items[..|items| - 1], items[|items| - 1];
      GetHas(before, key);
      HasKeyMore(before, last, key);
      assert items == before + [last];
    }
  }

  predicate DistinctKeys<K(==), V>(items: seq<(K, V)>) {
    forall i, j :: 0 <= i < j < |items| ==> items[i].0 != items[j].0
  }

  lemma {:induction false} KeepFirstDistinct<K, V>(items: seq<(K, V)>)
    ensures DistinctKeys(KeepFirst(items))
    decreases |items|
  {
    if items != [] {
      KeepFirstDistinct(items[..|items| - 1]);
    }
  }

  /** The loop, with the dictionary it fills. */
  method SetDefaults<K(==), V>(items: seq<(K, V)>) returns (kept: seq<(K, V)>)
    ensures kept == KeepFirst(items)
  {
    kept := [];
    var seen: set<K> := {};
    var i := 0;
    while i < |items|
      invariant i <= |items| && kept == KeepFirst(items[..i])
      invariant forall k :: k in seen <==> HasKey(kept, k)
    {
      assert items[..i + 1][..i] == items[..i];
      if items[i].0 !in seen {
        forall k ensures k in seen + {items[i].0} <==> HasKey(kept + [items[i]], k) {
          HasKeyMore(kept, items[i], k);
        }
        kept := kept + [items[i]];
        seen := seen + {items[i].0};
      }
      i := i + 1;
    }
    assert items[..i] == items;
  }

  /******* The provider order *******/

  function Rank(p: Provider): nat {
    match p
    case CodebaseMemory => 0
    case Composite => 1
    case Filesystem => 2
    case P4 => 3
  }

  /** The alphabetical order of the four provider names. */
  lemma NamesOrdered(p: Provider, q: Provider)
    requires p != q
    ensures Rank(p) < Rank(q) <==>
            p == CodebaseMemory || q == P4 || (p == Composite && q == Filesystem)
  {
  }

  /** The identity of a manifest: its provider and content hash. */
  function KeyOf(r: Rules, m: Manifest): (Provider, int) { (m.provider, r.hash(m)) }

  predicate AtMost(a: (Provider, int), b: (Provider, int)) {
    Rank(a.0) < Rank(b.0) || (a.0 == b.0 && a.1 <= b.1)
  }

  lemma AtMostBoth(a: (Provider, int), b: (Provider, int))
    requires AtMost(a, b) && AtMost(b, a)
    ensures a == b
  {
  }

  /** Insertion behind every row that is not greater: a stable sort. */
  function Place(r: Rules, m: Manifest, rows: seq<Manifest>): seq<Manifest> {
    if rows == [] then [m]
    else if AtMost(KeyOf(r, rows[0]), KeyOf(r, m)) then [rows[0]] + Place(r, m, rows[1..])
    else [m] + rows
  }

  function Sort(r: Rules, rows: seq<Manifest>): seq<Manifest>
    decreases |rows|
  {
    if rows == [] then [] else Place(r, rows[|rows| - 1], Sort(r, rows[..|rows| - 1]))
  }

  predicate Ascending(r: Rules, rows: seq<Manifest>) {
    forall i, j :: 0 <= i < j < |rows| ==> AtMost(KeyOf(r, rows[i]), KeyOf(r, rows[j]))
  }

  lemma AtMostOrder(a: (Provider, int), b: (Provider, int), c: (Provider, int))
    ensures AtMost(a, b) || AtMost(b, a)
    ensures AtMost(a, b) && AtMost(b, c) ==> AtMost(a, c)
  {
  }

  lemma ConsAscending(r: Rules, m: Manifest, rows: seq<Manifest>)
    requires Ascending(r, rows) && forall x :: x in rows ==> AtMost(KeyOf(r, m), KeyOf(r, x))
    ensures Ascending(r, [m] + rows)
  {
    hide AtMost, KeyOf;
  }

  lemma {:induction false} PlaceAscending(r: Rules, m: Manifest, rows: seq<Manifest>)
    requires Ascending(r, rows)
    ensures Ascending(r, Place(r, m, rows)) && multiset(Place(r, m, rows)) == multiset(rows) + multiset{m}
    decreases |rows|
  {
    hide AtMost, KeyOf, Ascending;
    if rows == [] {
      NoneAscending(r);
      ConsAscending(r, m, []);
      assert [m] + [] == [m];
    } else {
      assert rows == [rows[0]] + rows[1..];
      TailAscending(r, rows);
      if AtMost(KeyOf(r, rows[0]), KeyOf(r, m)) {
        var rest := Place(r, m, rows[1..]);
        PlaceAscending(r, m, rows[1..]);
        forall x | x in rest ensures AtMost(KeyOf(r, rows[0]), KeyOf(r, x)) {
          assert x in multiset(rest);
          assert x == m || x in rows[1..];
        }
        ConsAscending(r, rows[0], rest);
      } else {
        AtMostOrder(KeyOf(r, rows[0]), KeyOf(r, m), KeyOf(r, m));
        forall x | x in rows ensures AtMost(KeyOf(r, m), KeyOf(r, x)) {
          if x in rows[1..] {
            AtMostOrder(KeyOf(r, m), KeyOf(r, rows[0]), KeyOf(r, x));
          }
        }
        ConsAscending(r, m, rows);
      }
    }
  }

  lemma TailAscending(r: Rules, rows: seq<Manifest>)
    requires rows != [] && Ascending(r, rows)
    ensures Ascending(r, rows[1..]) && forall x :: x in rows[1..] ==> AtMost(KeyOf(r, rows[0]), KeyOf(r, x))
  {
    hide AtMost, KeyOf;
  }

  lemma NoneAscending(r: Rules)
    ensures Ascending(r, [])
  {
  }

  lemma {:induction false} SortAscending(r: Rules, rows: seq<Manifest>)
    ensures Ascending(r, Sort(r, rows)) && multiset(Sort(r, rows)) == multiset(rows)
    decreases |rows|
  {
    if rows != [] {
      SortAscending(r, rows[..|rows| - 1]);
      PlaceAscending(r, rows[|rows| - 1], Sort(r, rows[..|rows| - 1]));
      assert rows == rows[..|rows| - 1] + [rows[|rows| - 1]];
    }
  }

  /** Equal keys only on equal manifests; in particular when all keys are distinct. */
  predicate KeysIdentify(r: Rules, rows: seq<Manifest>) {
    forall i, j :: 0 <= i < |rows| && 0 <= j < |rows| && KeyOf(r, rows[i]) == KeyOf(r, rows[j]) ==> rows[i] == rows[j]
  }

  lemma IdentifyIn(r: Rules, rows: seq<Manifest>, a: Manifest, b: Manifest)
    requires KeysIdentify(r, rows) && a in rows && b in rows && KeyOf(r, a) == KeyOf(r, b)
    ensures a == b
  {
  }

  lemma {:induction false} AscendingUnique(r: Rules, x: seq<Manifest>, y: seq<Manifest>)
    requires Ascending(r, x) && Ascending(r, y) && multiset(x) == multiset(y) && KeysIdentify(r, x)
    ensures x == y
    decreases |x|
  {
    hide AtMost, KeyOf, Ascending, KeysIdentify;
    assert |multiset(x)| == |x| && |multiset(y)| == |y|;
    if x != [] {
      assert x[0] in multiset(y) && y[0] in multiset(x);
      HeadAtMost(r, x, y[0]);
      HeadAtMost(r, y, x[0]);
      AtMostBoth(KeyOf(r, x[0]), KeyOf(r, y[0]));
      IdentifyIn(r, x, x[0], y[0]);
      assert x == [x[0]] + x[1..] && y == [y[0]] + y[1..];
      assert multiset(x[1..]) == multiset(x) - multiset{x[0]};
      TailAscending(r, x);
      TailAscending(r, y);
      TailIdentifies(r, x);
      AscendingUnique(r, x[1..], y[1..]);
    }
  }

  lemma TailIdentifies(r: Rules, rows: seq<Manifest>)
    requires rows != [] && KeysIdentify(r, rows)
    ensures KeysIdentify(r, rows[1..])
  {
    hide KeyOf;
  }

  lemma HeadAtMost(r: Rules, rows: seq<Manifest>, m: Manifest)
    requires Ascending(r, rows) && m in rows
    ensures AtMost(KeyOf(r, rows[0]), KeyOf(r, m))
  {
  }

  /** Sorting forgets the order of arrival. */
  lemma SortForgetsOrder(r: Rules, a: seq<Manifest>, b: seq<Manifest>)
    requires multiset(a) == multiset(b) && KeysIdentify(r, a)
    ensures Sort(r, a) == Sort(r, b)
  {
    SortAscending(r, a);
    SortAscending(r, b);
    var x := Sort(r, a);
    forall i, j | 0 <= i < |x| && 0 <= j < |x| && KeyOf(r, x[i]) == KeyOf(r, x[j]) ensures x[i] == x[j] {
      assert x[i] in multiset(a) && x[j] in multiset(a);
      IdentifyIn(r, a, x[i], x[j]);
    }
    AscendingUnique(r, x, Sort(r, b));
  }

  /******* Normalising the provider list *******/

  function WithKeys(r: Rules, rows: seq<Manifest>): (ks: seq<((Provider, int), Manifest)>)
    ensures |ks| == |rows| && forall i :: 0 <= i < |rows| ==> ks[i] == (KeyOf(r, rows[i]), rows[i])
  {
    seq(|rows|, i requires 0 <= i < |rows| => (KeyOf(r, rows[i]), rows[i]))
  }

  function Values<K, V>(items: seq<(K, V)>): (vs: seq<V>)
    ensures |vs| == |items| && forall i :: 0 <= i < |items| ==> vs[i] == items[i].1
  {
    seq(|items|, i requires 0 <= i < |items| => items[i].1)
  }

  function Distinct(r: Rules, rows: seq<Manifest>): seq<Manifest> { Values(KeepFirst(WithKeys(r, rows))) }

  /** `_providers`: the first manifest of every key, sorted by key. */
  function Normalise(r: Rules, rows: seq<Manifest>): seq<Manifest> { Sort(r, Distinct(r, rows)) }

  /** `m` is the first manifest with its key. */
  predicate Leads(r: Rules, rows: seq<Manifest>, m: Manifest) {
    exists i :: 0 <= i < |rows| && rows[i] == m && forall j :: 0 <= j < i ==> KeyOf(r, rows[j]) != KeyOf(r, m)
  }

  lemma DistinctExact(r: Rules, rows: seq<Manifest>, m: Manifest)
    ensures m in Distinct(r, rows) <==> Leads(r, rows, m)
  {
    var ks := WithKeys(r, rows);
    var kept := KeepFirst(ks);
    KeepFirstExact(ks, (KeyOf(r, m), m));
    KeyedKept(r, rows, kept);
    if m in Distinct(r, rows) {
      var i :| 0 <= i < |kept| && kept[i].1 == m;
      assert kept[i] in kept;
    }
    if FirstOfKey(ks, (KeyOf(r, m), m)) {
      var i :| 0 <= i < |ks| && ks[i] == (KeyOf(r, m), m) && forall j :: 0 <= j < i ==> ks[j].0 != KeyOf(r, m);
      assert rows[i] == m && forall j :: 0 <= j < i ==> KeyOf(r, rows[j]) == ks[j].0;
      var k :| 0 <= k < |kept| && kept[k] == (KeyOf(r, m), m);
      assert Distinct(r, rows)[k] == m;
    }
    if Leads(r, rows, m) {
      var i :| 0 <= i < |rows| && rows[i] == m && forall j :: 0 <= j < i ==> KeyOf(r, rows[j]) != KeyOf(r, m);
      assert ks[i] == (KeyOf(r, m), m) && forall j :: 0 <= j < i ==> ks[j].0 != KeyOf(r, m);
    }
  }

  lemma KeyedKept(r: Rules, rows: seq<Manifest>, kept: seq<((Provider, int), Manifest)>)
    requires kept == KeepFirst(WithKeys(r, rows))
    ensures forall e :: e in kept ==> e.0 == KeyOf(r, e.1)
  {
    forall e | e in kept ensures e.0 == KeyOf(r, e.1) {
      KeepFirstExact(WithKeys(r, rows), e);
    }
  }

  lemma DistinctIdentifies(r: Rules, rows: seq<Manifest>)
    ensures KeysIdentify(r, Distinct(r, rows)) && NoRepeat(Distinct(r, rows))
  {
    var kept := KeepFirst(WithKeys(r, rows));
    KeepFirstDistinct(WithKeys(r, rows));
    KeyedKept(r, rows, kept);
    var d := Distinct(r, rows);
    forall i | 0 <= i < |d| ensures KeyOf(r, d[i]) == kept[i].0 {
      assert kept[i] in kept;
    }
  }

  predicate NoRepeat<T(==)>(s: seq<T>) { forall i, j :: 0 <= i < j < |s| ==> s[i] != s[j] }

  lemma {:induction false} CountNoRepeat<T>(s: seq<T>, e: T)
    requires NoRepeat(s)
    ensures multiset(s)[e] == if e in s then 1 else 0
    decreases |s|
  {
    if s != [] {
      CountNoRepeat(s[..|s| - 1], e);
      assert s == s[..|s| - 1] + [s[|s| - 1]];
    }
  }

  /** Two lists normalise alike exactly when every key is led by the same manifest. */
  lemma NormaliseExactly(r: Rules, a: seq<Manifest>, b: seq<Manifest>)
    ensures Normalise(r, a) == Normalise(r, b) <==> forall m :: Leads(r, a, m) <==> Leads(r, b, m)
  {
    var x, y := Distinct(r, a), Distinct(r, b);
    SortAscending(r, x);
    SortAscending(r, y);
    DistinctIdentifies(r, a);
    DistinctIdentifies(r, b);
    forall m ensures m in x <==> Leads(r, a, m) {
      DistinctExact(r, a, m);
    }
    forall m ensures m in y <==> Leads(r, b, m) {
      DistinctExact(r, b, m);
    }
    if forall m :: Leads(r, a, m) <==> Leads(r, b, m) {
      forall m ensures multiset(x)[m] == multiset(y)[m] {
        CountNoRepeat(x, m);
        CountNoRepeat(y, m);
      }
      SortForgetsOrder(r, x, y);
    } else {
      var m :| Leads(r, a, m) != Leads(r, b, m);
      assert (m in x) != (m in y);
      assert m in multiset(x) <==> m in x;
      assert m in multiset(y) <==> m in y;
      assert multiset(Sort(r, x)) != multiset(Sort(r, y));
    }
  }

  lemma IdentifyLeads(r: Rules, rows: seq<Manifest>, m: Manifest)
    requires KeysIdentify(r, rows)
    ensures Leads(r, rows, m) <==> m in rows
  {
    hide KeyOf, KeysIdentify;
    if m in rows {
      var i := FirstAt(rows, m);
      forall j | 0 <= j < i ensures KeyOf(r, rows[j]) != KeyOf(r, m) {
        if KeyOf(r, rows[j]) == KeyOf(r, m) {
          IdentifyIn(r, rows, rows[j], m);
        }
      }
    }
  }

  lemma FirstAt(rows: seq<Manifest>, m: Manifest) returns (i: nat)
    requires m in rows
    ensures i < |rows| && rows[i] == m && forall j :: 0 <= j < i ==> rows[j] != m
  {
    i := 0;
    while rows[i] != m
      invariant i < |rows| && m in rows[i..] && forall j :: 0 <= j < i ==> rows[j] != m
      decreases |rows| - i
    {
      assert rows[i..] == [rows[i]] + rows[i + 1..];
      i := i + 1;
    }
  }

  /******* Lists up to the order that sorting hides *******/

  /** The items with one key, in their order. */
  function Having<T, K(==)>(items: seq<T>, key: T -> K, k: K): seq<T>
    decreases |items|
  {
    if items == [] then []
    else
      var last := items[|items| - 1];
      Having(items[..|items| - 1], key, k) + if key(last) == k then [last] else []
  }

  lemma {:induction false} HavingExact<T, K>(items: seq<T>, key: T -> K, k: K, e: T)
    ensures e in Having(items, key, k) <==> e in items && key(e) == k
    decreases |items|
  {
    if items != [] {
      HavingExact(items[..|items| - 1], key, k, e);
      assert items == items[..|items| - 1] + [items[|items| - 1]];
    }
  }

  /** A stable sort by `key` makes the two lists equal. */
  ghost predicate SameSorted<T, K(!new)>(x: seq<T>, y: seq<T>, key: T -> K) {
    forall k :: Having(x, key, k) == Having(y, key, k)
  }

  lemma SameMembers<T, K(!new)>(x: seq<T>, y: seq<T>, key: T -> K, e: T)
    requires SameSorted(x, y, key)
    ensures e in x <==> e in y
  {
    HavingExact(x, key, key(e), e);
    HavingExact(y, key, key(e), e);
    assert Having(x, key, key(e)) == Having(y, key, key(e));
  }

  lemma {:induction false} CountHaving<T, K>(items: seq<T>, key: T -> K, k: K, e: T)
    ensures multiset(Having(items, key, k))[e] == if key(e) == k then multiset(items)[e] else 0
    decreases |items|
  {
    if items != [] {
      var front, last := items[..|items| - 1], items[|items| - 1];
      CountHaving(front, key, k, e);
      assert items == front + [last];
      assert multiset(items)[e] == multiset(front)[e] + if last == e then 1 else 0;
      var some := Having(front, key, k);
      if key(last) == k {
        assert Having(items, key, k) == some + [last];
      } else {
        assert Having(items, key, k) == some;
      }
    }
  }

  /** A list is a reordering of any other that sorts to the same. */
  lemma SameMultiset<T, K(!new)>(x: seq<T>, y: seq<T>, key: T -> K)
    requires SameSorted(x, y, key)
    ensures multiset(x) == multiset(y)
  {
    forall e ensures multiset(x)[e] == multiset(y)[e] {
      CountHaving(x, key, key(e), e);
      CountHaving(y, key, key(e), e);
      SortedAt(x, y, key, key(e));
    }
  }

  lemma SameCounts<T>(a: multiset<T>, b: multiset<T>)
    requires forall e :: a[e] == b[e]
    ensures a == b
  {
  }

  lemma HavingMultiset<T, K>(x: seq<T>, y: seq<T>, key: T -> K, k: K)
    requires multiset(x) == multiset(y)
    ensures multiset(Having(x, key, k)) == multiset(Having(y, key, k))
  {
    var a, b := multiset(Having(x, key, k)), multiset(Having(y, key, k));
    forall e ensures a[e] == b[e] {
      CountHaving(x, key, k, e);
      CountHaving(y, key, k, e);
    }
    SameCounts(a, b);
  }

  lemma SameEmpty<T, K(!new)>(x: seq<T>, y: seq<T>, key: T -> K)
    requires SameSorted(x, y, key)
    ensures x == [] <==> y == []
  {
    if x != [] {
      SameMembers(x, y, key, x[0]);
    }
    if y != [] {
      SameMembers(x, y, key, y[0]);
    }
  }

  /** The keyed entries that `f` makes of a list. */
  function Mapped<T, K, V>(items: seq<T>, f: T -> Option<(K, V)>): seq<(K, V)>
    decreases |items|
  {
    if items == [] then []
    else
      var e := f(items[|items| - 1]);
      Mapped(items[..|items| - 1], f) + if e.Some? then [e.value] else []
  }

  lemma MappedSnoc<T, K, V>(items: seq<T>, f: T -> Option<(K, V)>, j: nat)
    requires j < |items|
    ensures Mapped(items[..j + 1], f) == Mapped(items[..j], f) + if f(items[j]).Some? then [f(items[j]).value] else []
  {
    assert items[..j + 1][..j] == items[..j];
  }

  lemma {:induction false} MappedExact<T, K, V>(items: seq<T>, f: T -> Option<(K, V)>, e: (K, V))
    ensures e in Mapped(items, f) <==> exists x :: x in items && f(x) == Some(e)
    decreases |items|
  {
    if items != [] {
      var last := items[|items| - 1];
      MappedExact(items[..|items| - 1], f, e);
      assert items == items[..|items| - 1] + [last];
      assert f(last) == Some(e) ==> last in items;
    }
  }

  lemma {:induction false} GetMappedSome<T, K, V>(items: seq<T>, f: T -> Option<(K, V)>, k: K)
    ensures Get(Mapped(items, f), k).Some? <==> exists x :: x in items && f(x).Some? && f(x).value.0 == k
    decreases |items|
  {
    if items != [] {
      var last := items[|items| - 1];
      var front := items[..|items| - 1];
      GetMappedSome(front, f, k);
      assert items == front + [last];
      assert f(last).Some? && f(last).value.0 == k ==> last in items;
      GetAppend(Mapped(front, f), if f(last).Some? then [f(last).value] else [], k);
      GetSingle(f(last), k);
    }
  }

  lemma GetSingle<K, V>(e: Option<(K, V)>, k: K)
    ensures Get(if e.Some? then [e.value] else [], k) == if e.Some? && e.value.0 == k then Some(e.value.1) else None
  {
    if e.Some? {
      assert [e.value][..0] == [];
    }
  }

  /** Where one list key stands for the entry key `k`, its first item makes the entry. */
  lemma {:induction false} GetMapped<T, Q, K, V>(items: seq<T>, key: T -> Q, f: T -> Option<(K, V)>, k: K, q: Q)
    requires forall e :: e in items ==> ((f(e).Some? && f(e).value.0 == k) <==> key(e) == q)
    ensures Having(items, key, q) != [] ==> f(Having(items, key, q)[0]).Some?
    ensures Get(Mapped(items, f), k) ==
            if Having(items, key, q) == [] then None else Some(f(Having(items, key, q)[0]).value.1)
    decreases |items|
  {
    if items != [] {
      var last := items[|items| - 1];
      var front := items[..|items| - 1];
      assert last in items && forall e :: e in front ==> e in items;
      GetMapped(front, key, f, k, q);
      GetAppend(Mapped(front, f), if f(last).Some? then [f(last).value] else [], k);
      GetSingle(f(last), k);
    }
  }

  /** Entries are made by the list key alone, and different list keys make different ones. */
  predicate Clear<T(==), Q(==), K(==), V>(items: seq<T>, key: T -> Q, f: T -> Option<(K, V)>) {
    forall a, b :: a in items && b in items && f(a).Some? && f(b).Some? && f(a).value.0 == f(b).value.0 ==>
      key(a) == key(b)
  }

  predicate Keyed<T(==), Q(==), K(==), V>(items: seq<T>, key: T -> Q, f: T -> Option<(K, V)>) {
    forall a, b :: a in items && b in items && key(a) == key(b) && f(a).Some? ==>
      f(b).Some? && f(a).value.0 == f(b).value.0
  }

  lemma SameSomeEntry<T, Q(!new), K, V>(x: seq<T>, y: seq<T>, key: T -> Q, f: T -> Option<(K, V)>, k: K)
    requires SameSorted(x, y, key)
    ensures Get(Mapped(x, f), k).Some? <==> Get(Mapped(y, f), k).Some?
  {
    GetMappedSome(x, f, k);
    GetMappedSome(y, f, k);
    if e :| e in x && f(e).Some? && f(e).value.0 == k {
      SameMembers(x, y, key, e);
    }
    if e :| e in y && f(e).Some? && f(e).value.0 == k {
      SameMembers(x, y, key, e);
    }
  }

  lemma SameEntry<T, Q(!new), K, V>(x: seq<T>, y: seq<T>, key: T -> Q, f: T -> Option<(K, V)>, k: K)
    requires SameSorted(x, y, key) && Clear(x, key, f) && Keyed(x, key, f)
    ensures Get(Mapped(x, f), k) == Get(Mapped(y, f), k)
  {
    hide SameSorted;
    SameSomeEntry(x, y, key, f, k);
    GetMappedSome(x, f, k);
    if Get(Mapped(x, f), k).Some? {
      var e :| e in x && f(e).Some? && f(e).value.0 == k;
      forall o | o in y ensures o in x {
        SameMembers(x, y, key, o);
      }
      GetMapped(x, key, f, k, key(e));
      GetMapped(y, key, f, k, key(e));
      SortedAt(x, y, key, key(e));
    }
  }

  lemma SortedAt<T, K(!new)>(x: seq<T>, y: seq<T>, key: T -> K, k: K)
    requires SameSorted(x, y, key)
    ensures Having(x, key, k) == Having(y, key, k)
  {
  }

  /******* First wins across columns *******/

  function Flat<T>(columns: seq<seq<T>>): seq<T>
    decreases |columns|
  {
    if columns == [] then [] else Flat(columns[..|columns| - 1]) + columns[|columns| - 1]
  }

  lemma FlatSnoc<K, V>(xs: seq<seq<(K, V)>>, k: K)
    requires xs != []
    ensures var before := Get(Flat(xs[..|xs| - 1]), k);
            Get(Flat(xs), k) == if before.Some? then before else Get(xs[|xs| - 1], k)
  {
    hide Get;
    GetAppend(Flat(xs[..|xs| - 1]), xs[|xs| - 1], k);
  }

  /** The first column with the key decides, whatever follows. */
  lemma {:induction false} FlatFirst<K, V>(xs: seq<seq<(K, V)>>, i: nat, k: K)
    requires i < |xs| && Get(Flat(xs[..i]), k).None? && Get(xs[i], k).Some?
    ensures Get(Flat(xs), k) == Get(xs[i], k)
    decreases |xs|
  {
    hide Get, Flat;
    var n := |xs| - 1;
    FlatSnoc(xs, k);
    if i < n {
      assert xs[..n][..i] == xs[..i];
      FlatFirst(xs[..n], i, k);
    }
  }

  lemma {:induction false} FlatSome<K, V>(xs: seq<seq<(K, V)>>, ys: seq<seq<(K, V)>>, k: K)
    requires |xs| == |ys| && forall i :: 0 <= i < |xs| ==> (Get(xs[i], k).Some? <==> Get(ys[i], k).Some?)
    ensures Get(Flat(xs), k).Some? <==> Get(Flat(ys), k).Some?
    decreases |xs|
  {
    hide Get, Flat;
    if xs == [] {
      assert ys == [];
    } else {
      var n := |xs| - 1;
      FlatSnoc(xs, k);
      FlatSnoc(ys, k);
      FlatSome(xs[..n], ys[..n], k);
    }
  }

  /** Columns that agree wherever nothing shadows them stack up alike. */
  lemma {:induction false} FlatAgrees<K, V>(xs: seq<seq<(K, V)>>, ys: seq<seq<(K, V)>>, k: K)
    requires |xs| == |ys|
    requires forall i :: 0 <= i < |xs| && Get(Flat(xs[..i]), k).None? ==> Get(xs[i], k) == Get(ys[i], k)
    ensures Get(Flat(xs), k) == Get(Flat(ys), k)
    decreases |xs|
  {
    hide Get, Flat;
    if xs == [] {
      assert ys == [];
    } else {
      var n := |xs| - 1;
      FlatSnoc(xs, k);
      FlatSnoc(ys, k);
      assert forall i :: 0 <= i < n ==> xs[..n][..i] == xs[..i];
      FlatAgrees(xs[..n], ys[..n], k);
      assert xs[..n] == xs[..|xs| - 1];
    }
  }

  /** Two stacks of columns agree on a key exactly when every column not shadowed by an
      earlier one does. */
  lemma FlatExactly<K, V>(xs: seq<seq<(K, V)>>, ys: seq<seq<(K, V)>>, k: K)
    requires |xs| == |ys| && forall i :: 0 <= i < |xs| ==> (Get(xs[i], k).Some? <==> Get(ys[i], k).Some?)
    ensures Get(Flat(xs), k) == Get(Flat(ys), k) <==>
            forall i :: 0 <= i < |xs| && Get(Flat(xs[..i]), k).None? ==> Get(xs[i], k) == Get(ys[i], k)
  {
    hide Get, Flat;
    if Get(Flat(xs), k) == Get(Flat(ys), k) {
      forall i | 0 <= i < |xs| && Get(Flat(xs[..i]), k).None? ensures Get(xs[i], k) == Get(ys[i], k) {
        if Get(xs[i], k).Some? {
          FlatFirst(xs, i, k);
          FlatSome(xs[..i], ys[..i], k);
          FlatFirst(ys, i, k);
        }
      }
    } else if forall i :: 0 <= i < |xs| && Get(Flat(xs[..i]), k).None? ==> Get(xs[i], k) == Get(ys[i], k) {
      FlatAgrees(xs, ys, k);
    }
  }

  /** Kept values seen as a list sorted by the key they carry. */
  lemma {:induction false} KeptHaving<K, V>(items: seq<(K, V)>, key: V -> K, k: K)
    requires forall e :: e in items ==> key(e.1) == e.0
    ensures Having(Values(KeepFirst(items)), key, k) == if Get(items, k).Some? then [Get(items, k).value] else []
    decreases |items|
  {
    if items != [] {
      var before, last := items[..|items| - 1], items[|items| - 1];
      assert last in items && forall e :: e in before ==> e in items;
      KeptHaving(before, key, k);
      var kept := KeepFirst(before);
      KeepFirstExact(before, last);
      GetHas(before, last.0);
      if !HasKey(kept, last.0) {
        assert Values(kept + [last]) == Values(kept) + [last.1];
        var all := Values(kept) + [last.1];
        assert all[..|all| - 1] == Values(kept);
      }
    } else {
      assert Values(KeepFirst(items)) == [];
    }
  }

  /******* The composite *******/

  function RawPath(f: File): string { f.path }

  function FullName(s: Symbol): string { if s.qualified != "" then s.qualified else s.name }

  function RawName(s: Symbol): (string, string) { (FullName(s), s.path) }

  /** What normalising an entry depends on besides the entry. */
  datatype Origin = Origin(root: string, provider: Provider)

  function OriginOf(m: Manifest): Origin { Origin(m.root, m.provider) }

  function CanonicalFile(r: Rules, o: Origin, f: File): File {
    f.(path := r.path(f.path, o.root), source := Some(o.provider))
  }

  function CanonicalSymbol(r: Rules, o: Origin, s: Symbol): Symbol {
    s.(path := if s.path != "" then r.path(s.path, o.root) else "", source := Some(o.provider))
  }

  /** A canonical entry keeps what it says, under its normalised path and with its source;
      a symbol without a path stays without one. */
  lemma CanonicalExactly(r: Rules, o: Origin, f: File, s: Symbol)
    ensures var c := CanonicalFile(r, o, f);
            c.path == r.path(f.path, o.root) && c.source == Some(o.provider)
            && c == f.(path := c.path, source := c.source)
    ensures var c := CanonicalSymbol(r, o, s);
            c.path == (if |s.path| == 0 then "" else r.path(s.path, o.root)) && c.source == Some(o.provider)
            && c == s.(path := c.path, source := c.source)
    ensures FullName(s) == s.name || FullName(s) == s.qualified
    ensures FullName(s) == s.name <==> s.qualified == "" || s.qualified == s.name
  {
  }

  /** A file enters the composite under its canonical path, unless that is empty. */
  function FileEntry(r: Rules, o: Origin): File -> Option<(string, File)> {
    (f: File) => var c := CanonicalFile(r, o, f); if c.path == "" then None else Some((c.path, c))
  }

  function SymbolEntry(r: Rules, o: Origin): Symbol -> Option<((string, string), Symbol)> {
    (s: Symbol) => var c := CanonicalSymbol(r, o, s); Some((RawName(c), c))
  }

  function FilesOf(r: Rules, m: Manifest): seq<(string, File)> { Mapped(m.files, FileEntry(r, OriginOf(m))) }

  function SymbolsOf(r: Rules, m: Manifest): seq<((string, string), Symbol)> {
    Mapped(m.symbols, SymbolEntry(r, OriginOf(m)))
  }

  function FileColumns(r: Rules, rows: seq<Manifest>): (xs: seq<seq<(string, File)>>)
    ensures |xs| == |rows| && forall i :: 0 <= i < |rows| ==> xs[i] == FilesOf(r, rows[i])
  {
    seq(|rows|, i requires 0 <= i < |rows| => FilesOf(r, rows[i]))
  }

  function SymbolColumns(r: Rules, rows: seq<Manifest>): (xs: seq<seq<((string, string), Symbol)>>)
    ensures |xs| == |rows| && forall i :: 0 <= i < |rows| ==> xs[i] == SymbolsOf(r, rows[i])
  {
    seq(|rows|, i requires 0 <= i < |rows| => SymbolsOf(r, rows[i]))
  }

  function AllFiles(r: Rules, rows: seq<Manifest>): seq<(string, File)> { Flat(FileColumns(r, rows)) }

  function AllSymbols(r: Rules, rows: seq<Manifest>): seq<((string, string), Symbol)> { Flat(SymbolColumns(r, rows)) }

  function MergedStatus(rows: seq<Manifest>): Status {
    if exists m :: m in rows && m.status.Ready? then Ready
    else if exists m :: m in rows && m.status.Partial? then Partial
    else if exists m :: m in rows && m.status.Failed? then Failed
    else Unavailable
  }

  function Revisions(rows: seq<Manifest>): seq<(string, string)>
    decreases |rows|
  {
    if rows == [] then []
    else
      var m := rows[|rows| - 1];
      Revisions(rows[..|rows| - 1]) + if m.revision != "" then [(m.revision, m.revision)] else []
  }

  function FirstRoot(rows: seq<Manifest>): string {
    if rows == [] then "" else if rows[0].root != "" then rows[0].root else FirstRoot(rows[1..])
  }

  function ByProvider<T>(rows: seq<Manifest>, f: Manifest -> T): map<Provider, T>
    decreases |rows|
  {
    if rows == [] then map[]
    else ByProvider(rows[..|rows| - 1], f)[rows[|rows| - 1].provider := f(rows[|rows| - 1])]
  }

  function StatusOf(m: Manifest): Status { m.status }

  function Sources(rows: seq<Manifest>): seq<Provider> {
    seq(|rows|, i requires 0 <= i < |rows| => rows[i].provider)
  }

  /** A snapshot without any entry is never ready. */
  function Settled(status: Status, files: seq<File>, symbols: seq<Symbol>): Status {
    if status.Ready? && files == [] && symbols == [] then Partial else status
  }

  /** `SnapshotManifest.merge` without a caller's root. */
  function Merge(r: Rules, project: string, manifests: seq<Manifest>): Merged {
    var rows := Sort(r, manifests);
    var files, symbols := Values(KeepFirst(AllFiles(r, rows))), Values(KeepFirst(AllSymbols(r, rows)));
    Merged(project, FirstRoot(rows), Values(KeepFirst(Revisions(rows))),
           Sources(rows), Settled(MergedStatus(rows), files, symbols),
           files, symbols,
           ByProvider(rows, StatusOf), ByProvider(rows, r.hash))
  }

  predicate IsComposite(m: Manifest) { m.provider.Composite? }

  /** A verification run merges the provider manifests, a submitted composite only if
      there is nothing else. */
  function Inputs(rows: seq<Manifest>): seq<Manifest> {
    var base := Having(rows, IsComposite, false);
    if base == [] then rows else base
  }

  function CompositeOf(r: Rules, project: string, rows: seq<Manifest>): Merged { Merge(r, project, Inputs(rows)) }

  /** What a composite says, its lists sorted as its hash reads them. */
  ghost predicate SameComposite(c: Merged, d: Merged) {
    && c.(files := [], symbols := []) == d.(files := [], symbols := [])
    && SameSorted(c.files, d.files, RawPath) && SameSorted(c.symbols, d.symbols, RawName)
  }

  /** What a manifest says, its lists sorted, whenever it was captured: all that its hash reads. */
  ghost predicate SameContent(a: Manifest, b: Manifest) {
    && a.(files := [], symbols := [], capturedAt := 0) == b.(files := [], symbols := [], capturedAt := 0)
    && SameSorted(a.files, b.files, RawPath) && SameSorted(a.symbols, b.symbols, RawName)
  }

  /** Content hashes do not collide among these manifests. */
  ghost predicate CollisionFree(r: Rules, rows: seq<Manifest>) {
    forall a, b :: a in rows && b in rows && KeyOf(r, a) == KeyOf(r, b) ==> SameContent(a, b)
  }

  ghost predicate Aligned(r: Rules, x: seq<Manifest>, y: seq<Manifest>) {
    |x| == |y| && forall i :: 0 <= i < |x| ==> KeyOf(r, x[i]) == KeyOf(r, y[i]) && SameContent(x[i], y[i])
  }

  /******* Arrival order and the provider list *******/

  function KeySeq(r: Rules, rows: seq<Manifest>): (ks: seq<(Provider, int)>)
    ensures |ks| == |rows| && forall i :: 0 <= i < |rows| ==> ks[i] == KeyOf(r, rows[i])
  {
    seq(|rows|, i requires 0 <= i < |rows| => KeyOf(r, rows[i]))
  }

  predicate Strict(ks: seq<(Provider, int)>) {
    forall i, j :: 0 <= i < j < |ks| ==> AtMost(ks[i], ks[j]) && ks[i] != ks[j]
  }

  lemma {:induction false} StrictUnique(x: seq<(Provider, int)>, y: seq<(Provider, int)>)
    requires Strict(x) && Strict(y) && forall k :: k in x <==> k in y
    ensures x == y
    decreases |x|
  {
    hide AtMost;
    assert y != [] ==> y[0] in y;
    if x != [] {
      assert x[0] in y && y != [] && y[0] in x;
      StrictHead(x, y[0]);
      StrictHead(y, x[0]);
      AtMostBoth(x[0], y[0]);
      StrictTail(x);
      StrictTail(y);
      assert x == [x[0]] + x[1..] && y == [y[0]] + y[1..];
      forall k ensures k in x[1..] <==> k in y[1..] {
        assert k in x[1..] <==> k in x && k != x[0];
        assert k in y[1..] <==> k in y && k != y[0];
      }
      StrictUnique(x[1..], y[1..]);
    }
  }

  lemma StrictHead(x: seq<(Provider, int)>, k: (Provider, int))
    requires Strict(x) && k in x
    ensures AtMost(x[0], k)
  {
  }

  lemma StrictTail(x: seq<(Provider, int)>)
    requires Strict(x) && x != []
    ensures Strict(x[1..]) && x[0] !in x[1..]
  {
    hide AtMost;
  }

  lemma LeaderExists(r: Rules, rows: seq<Manifest>, k: (Provider, int)) returns (m: Manifest)
    requires k in KeySeq(r, rows)
    ensures Leads(r, rows, m) && KeyOf(r, m) == k && m in rows
  {
    hide KeyOf;
    var ks := KeySeq(r, rows);
    var i := 0;
    while ks[i] != k
      invariant i < |ks| && k in ks[i..] && forall j :: 0 <= j < i ==> ks[j] != k
      decreases |ks| - i
    {
      assert ks[i..] == [ks[i]] + ks[i + 1..];
      i := i + 1;
    }
    m := rows[i];
  }

  lemma NormaliseIn(r: Rules, rows: seq<Manifest>, m: Manifest)
    ensures m in Normalise(r, rows) <==> Leads(r, rows, m)
  {
    hide Leads;
    SortAscending(r, Distinct(r, rows));
    DistinctExact(r, rows, m);
    assert m in multiset(Normalise(r, rows)) <==> m in Normalise(r, rows);
    assert m in multiset(Distinct(r, rows)) <==> m in Distinct(r, rows);
  }

  /** A normalised list has every key of its input once, in order. */
  lemma NormaliseKeys(r: Rules, rows: seq<Manifest>)
    ensures Strict(KeySeq(r, Normalise(r, rows)))
    ensures forall k :: k in KeySeq(r, Normalise(r, rows)) <==> k in KeySeq(r, rows)
    ensures forall m :: m in Normalise(r, rows) ==> m in rows
    ensures Ascending(r, Normalise(r, rows))
  {
    hide KeyOf, AtMost, Normalise, Leads;
    var x := Normalise(r, rows);
    NormaliseSorted(r, rows);
    forall m | m in x ensures m in rows && KeyOf(r, m) in KeySeq(r, rows) {
      NormaliseIn(r, rows, m);
      LeadsIn(r, rows, m);
      var i :| 0 <= i < |rows| && rows[i] == m;
      assert KeySeq(r, rows)[i] == KeyOf(r, m);
    }
    forall k | k in KeySeq(r, rows) ensures k in KeySeq(r, x) {
      var m := LeaderExists(r, rows, k);
      NormaliseIn(r, rows, m);
      var i :| 0 <= i < |x| && x[i] == m;
      assert KeySeq(r, x)[i] == k;
    }
    forall k | k in KeySeq(r, x) ensures k in KeySeq(r, rows) {
      var i :| 0 <= i < |x| && KeySeq(r, x)[i] == k;
      assert x[i] in x;
    }
  }

  lemma LeadsIn(r: Rules, rows: seq<Manifest>, m: Manifest)
    requires Leads(r, rows, m)
    ensures m in rows
  {
  }

  lemma NormaliseSorted(r: Rules, rows: seq<Manifest>)
    ensures Ascending(r, Normalise(r, rows)) && Strict(KeySeq(r, Normalise(r, rows)))
  {
    hide KeyOf, AtMost, Distinct, Sort;
    var d := Distinct(r, rows);
    var x := Sort(r, d);
    SortAscending(r, d);
    DistinctIdentifies(r, rows);
    forall i, j | 0 <= i < j < |x| ensures KeyOf(r, x[i]) != KeyOf(r, x[j]) {
      assert x[i] in multiset(d) && x[j] in multiset(d);
      if KeyOf(r, x[i]) == KeyOf(r, x[j]) {
        IdentifyIn(r, d, x[i], x[j]);
        CountNoRepeat(d, x[i]);
        Twice(x, i, j);
      }
    }
  }

  lemma Twice<T>(s: seq<T>, i: nat, j: nat)
    requires i < j < |s| && s[i] == s[j]
    ensures multiset(s)[s[i]] >= 2
  {
    assert s == s[..j] + [s[j]] + s[j + 1..];
    assert s[i] in s[..j] by { assert s[..j][i] == s[i]; }
    assert s[i] in multiset(s[..j]);
  }

  /** Any order of arrival normalises to the same keys in the same places, with manifests
      that say the same: they may differ in capture time and in the order of their lists. */
  lemma ArrivalOrderForgotten(r: Rules, a: seq<Manifest>, b: seq<Manifest>)
    requires multiset(a) == multiset(b) && CollisionFree(r, a)
    ensures Aligned(r, Normalise(r, a), Normalise(r, b))
  {
    hide KeyOf, Normalise, SameContent, Strict;
    var x, y := Normalise(r, a), Normalise(r, b);
    NormaliseKeys(r, a);
    NormaliseKeys(r, b);
    forall m ensures m in a <==> m in b {
      assert m in multiset(a) <==> m in a;
      assert m in multiset(b) <==> m in b;
    }
    SameKeys(r, a, b);
    StrictUnique(KeySeq(r, x), KeySeq(r, y));
    forall i | 0 <= i < |x| ensures KeyOf(r, x[i]) == KeyOf(r, y[i]) && SameContent(x[i], y[i]) {
      assert KeySeq(r, x)[i] == KeySeq(r, y)[i];
      assert x[i] in x && y[i] in y;
    }
  }

  lemma SameKeys(r: Rules, a: seq<Manifest>, b: seq<Manifest>)
    requires forall m :: m in a <==> m in b
    ensures forall k :: k in KeySeq(r, a) <==> k in KeySeq(r, b)
  {
    hide KeyOf;
    forall k | k in KeySeq(r, a) ensures k in KeySeq(r, b) {
      var i :| 0 <= i < |a| && KeySeq(r, a)[i] == k;
      assert a[i] in b;
      var j :| 0 <= j < |b| && b[j] == a[i];
      assert KeySeq(r, b)[j] == k;
    }
    forall k | k in KeySeq(r, b) ensures k in KeySeq(r, a) {
      var i :| 0 <= i < |b| && KeySeq(r, b)[i] == k;
      assert b[i] in a;
      var j :| 0 <= j < |a| && a[j] == b[i];
      assert KeySeq(r, a)[j] == k;
    }
  }

  /******* Arrival order and the composite *******/

  /** Sorting a sorted list changes nothing. */
  lemma {:induction false} SortSorted(r: Rules, rows: seq<Manifest>)
    requires Ascending(r, rows)
    ensures Sort(r, rows) == rows
    decreases |rows|
  {
    hide AtMost, KeyOf;
    if rows != [] {
      var n := |rows| - 1;
      SortSorted(r, rows[..n]);
      PlaceLast(r, rows[n], rows[..n]);
      assert rows == rows[..n] + [rows[n]];
    }
  }

  lemma {:induction false} PlaceLast(r: Rules, m: Manifest, rows: seq<Manifest>)
    requires forall x :: x in rows ==> AtMost(KeyOf(r, x), KeyOf(r, m))
    ensures Place(r, m, rows) == rows + [m]
    decreases |rows|
  {
    hide AtMost, KeyOf;
    if rows != [] {
      PlaceLast(r, m, rows[1..]);
      assert rows + [m] == [rows[0]] + (rows[1..] + [m]);
    }
  }

  lemma AlignedFront(r: Rules, x: seq<Manifest>, y: seq<Manifest>, n: nat)
    requires Aligned(r, x, y) && n <= |x|
    ensures Aligned(r, x[..n], y[..n])
  {
    hide SameContent, KeyOf;
  }

  lemma {:induction false} AlignedFields(r: Rules, x: seq<Manifest>, y: seq<Manifest>)
    requires Aligned(r, x, y)
    ensures Revisions(x) == Revisions(y)
    ensures ByProvider(x, StatusOf) == ByProvider(y, StatusOf) && ByProvider(x, r.hash) == ByProvider(y, r.hash)
    decreases |x|
  {
    hide SameSorted;
    if x != [] {
      var n := |x| - 1;
      AlignedFront(r, x, y, n);
      AlignedFields(r, x[..n], y[..n]);
      SameHeader(r, x, y, n);
    }
  }

  lemma SameHeader(r: Rules, x: seq<Manifest>, y: seq<Manifest>, i: nat)
    requires Aligned(r, x, y) && i < |x|
    ensures x[i].(files := [], symbols := [], capturedAt := 0) == y[i].(files := [], symbols := [], capturedAt := 0)
    ensures x[i].provider == y[i].provider && x[i].root == y[i].root && x[i].revision == y[i].revision
    ensures x[i].status == y[i].status && x[i].metadata == y[i].metadata && r.hash(x[i]) == r.hash(y[i])
  {
    var a, b := x[i].(files := [], symbols := [], capturedAt := 0), y[i].(files := [], symbols := [], capturedAt := 0);
    assert a == b && a.root == x[i].root && b.root == y[i].root && a.revision == x[i].revision
           && b.revision == y[i].revision && a.status == x[i].status && b.status == y[i].status
           && a.metadata == x[i].metadata && b.metadata == y[i].metadata;
  }

  lemma {:induction false} AlignedRoot(r: Rules, x: seq<Manifest>, y: seq<Manifest>)
    requires Aligned(r, x, y)
    ensures FirstRoot(x) == FirstRoot(y)
    decreases |x|
  {
    hide SameSorted, KeyOf;
    if x != [] {
      SameHeader(r, x, y, 0);
      AlignedRoot(r, x[1..], y[1..]);
    }
  }

  lemma AlignedStatus(r: Rules, x: seq<Manifest>, y: seq<Manifest>)
    requires Aligned(r, x, y)
    ensures MergedStatus(x) == MergedStatus(y)
  {
    hide SameContent, KeyOf;
    forall i | 0 <= i < |x| ensures x[i].status == y[i].status {
      SameHeader(r, x, y, i);
    }
    StatusOfEither(x, y);
    StatusOfEither(y, x);
  }

  lemma StatusOfEither(x: seq<Manifest>, y: seq<Manifest>)
    requires |x| == |y| && forall i :: 0 <= i < |x| ==> x[i].status == y[i].status
    ensures (exists m :: m in x && m.status.Ready?) ==> exists m :: m in y && m.status.Ready?
    ensures (exists m :: m in x && m.status.Partial?) ==> exists m :: m in y && m.status.Partial?
    ensures (exists m :: m in x && m.status.Failed?) ==> exists m :: m in y && m.status.Failed?
  {
    forall m | m in x ensures exists o :: o in y && o.status == m.status {
      var i :| 0 <= i < |x| && x[i] == m;
      assert y[i] in y;
    }
  }

  /** The first file, or symbol, that a manifest offers under a canonical key. */
  function FileAt(r: Rules, m: Manifest, path: string): Option<File> { Get(FilesOf(r, m), path) }

  function SymbolAt(r: Rules, m: Manifest, k: (string, string)): Option<Symbol> { Get(SymbolsOf(r, m), k) }

  /** Where no earlier manifest offers a key, the two manifests offer the same under it. */
  ghost predicate LeadersAgree(r: Rules, x: seq<Manifest>, y: seq<Manifest>)
    requires |x| == |y|
  {
    && (forall i, k :: 0 <= i < |x| && Get(AllFiles(r, x[..i]), k).None? ==> FileAt(r, x[i], k) == FileAt(r, y[i], k))
    && (forall i, k :: 0 <= i < |x| && Get(AllSymbols(r, x[..i]), k).None? ==>
          SymbolAt(r, x[i], k) == SymbolAt(r, y[i], k))
  }

  lemma FilesCarryKeys(r: Rules, rows: seq<Manifest>)
    ensures forall e :: e in AllFiles(r, rows) ==> RawPath(e.1) == e.0
  {
    hide CanonicalFile, Mapped, Flat;
    forall e | e in AllFiles(r, rows) ensures RawPath(e.1) == e.0 {
      var i := InColumn(FileColumns(r, rows), e);
      MappedExact(rows[i].files, FileEntry(r, OriginOf(rows[i])), e);
    }
  }

  lemma SymbolsCarryKeys(r: Rules, rows: seq<Manifest>)
    ensures forall e :: e in AllSymbols(r, rows) ==> RawName(e.1) == e.0
  {
    hide CanonicalSymbol, Mapped, Flat, RawName;
    forall e | e in AllSymbols(r, rows) ensures RawName(e.1) == e.0 {
      var i := InColumn(SymbolColumns(r, rows), e);
      MappedExact(rows[i].symbols, SymbolEntry(r, OriginOf(rows[i])), e);
    }
  }

  lemma {:induction false} InColumn<T>(xs: seq<seq<T>>, e: T) returns (i: nat)
    requires e in Flat(xs)
    ensures i < |xs| && e in xs[i]
    decreases |xs|
  {
    var n := |xs| - 1;
    if e in xs[n] {
      i := n;
    } else {
      i := InColumn(xs[..n], e);
    }
  }

  lemma KeptFiles(r: Rules, x: seq<Manifest>, y: seq<Manifest>)
    ensures SameSorted(Values(KeepFirst(AllFiles(r, x))), Values(KeepFirst(AllFiles(r, y))), RawPath) <==>
            SameGets(AllFiles(r, x), AllFiles(r, y))
  {
    hide AllFiles, KeepFirst, Values, Get, Having;
    FilesCarryKeys(r, x);
    FilesCarryKeys(r, y);
    var a, b := Values(KeepFirst(AllFiles(r, x))), Values(KeepFirst(AllFiles(r, y)));
    if SameSorted(a, b, RawPath) {
      forall k ensures Get(AllFiles(r, x), k) == Get(AllFiles(r, y), k) {
        KeptHaving(AllFiles(r, x), RawPath, k);
        KeptHaving(AllFiles(r, y), RawPath, k);
        OneOrNone(Get(AllFiles(r, x), k), Get(AllFiles(r, y), k));
        SortedAt(a, b, RawPath, k);
      }
      assert SameGets(AllFiles(r, x), AllFiles(r, y));
    }
    if SameGets(AllFiles(r, x), AllFiles(r, y)) {
      forall k ensures Having(a, RawPath, k) == Having(b, RawPath, k) {
        SameGetsAt(AllFiles(r, x), AllFiles(r, y), k);
        KeptHaving(AllFiles(r, x), RawPath, k);
        KeptHaving(AllFiles(r, y), RawPath, k);
      }
      assert SameSorted(a, b, RawPath);
    }
  }

  lemma KeptSymbols(r: Rules, x: seq<Manifest>, y: seq<Manifest>)
    ensures SameSorted(Values(KeepFirst(AllSymbols(r, x))), Values(KeepFirst(AllSymbols(r, y))), RawName) <==>
            SameGets(AllSymbols(r, x), AllSymbols(r, y))
  {
    hide AllSymbols, KeepFirst, Values, Get, Having;
    SymbolsCarryKeys(r, x);
    SymbolsCarryKeys(r, y);
    var a, b := Values(KeepFirst(AllSymbols(r, x))), Values(KeepFirst(AllSymbols(r, y)));
    if SameSorted(a, b, RawName) {
      forall k ensures Get(AllSymbols(r, x), k) == Get(AllSymbols(r, y), k) {
        KeptHaving(AllSymbols(r, x), RawName, k);
        KeptHaving(AllSymbols(r, y), RawName, k);
        OneOrNone(Get(AllSymbols(r, x), k), Get(AllSymbols(r, y), k));
        SortedAt(a, b, RawName, k);
      }
      assert SameGets(AllSymbols(r, x), AllSymbols(r, y));
    }
    if SameGets(AllSymbols(r, x), AllSymbols(r, y)) {
      forall k ensures Having(a, RawName, k) == Having(b, RawName, k) {
        SameGetsAt(AllSymbols(r, x), AllSymbols(r, y), k);
        KeptHaving(AllSymbols(r, x), RawName, k);
        KeptHaving(AllSymbols(r, y), RawName, k);
      }
      assert SameSorted(a, b, RawName);
    }
  }

  lemma OneOrNone<T>(a: Option<T>, b: Option<T>)
    ensures (if a.Some? then [a.value] else []) == (if b.Some? then [b.value] else []) <==> a == b
  {
    if a.Some? && b.Some? && [a.value] == [b.value] {
      assert [a.value][0] == [b.value][0];
    }
  }

  lemma SameFileEntry(r: Rules, a: Manifest, b: Manifest, path: string)
    requires SameContent(a, b)
    ensures FileAt(r, a, path).Some? <==> FileAt(r, b, path).Some?
  {
    SameEntries(r, a, b);
    SameSomeEntry(a.files, b.files, RawPath, FileEntry(r, OriginOf(a)), path);
  }

  lemma SameSymbolEntry(r: Rules, a: Manifest, b: Manifest, k: (string, string))
    requires SameContent(a, b)
    ensures SymbolAt(r, a, k).Some? <==> SymbolAt(r, b, k).Some?
  {
    SameEntries(r, a, b);
    SameSomeEntry(a.symbols, b.symbols, RawName, SymbolEntry(r, OriginOf(a)), k);
  }

  lemma SameEntries(r: Rules, a: Manifest, b: Manifest)
    requires SameContent(a, b)
    ensures FileEntry(r, OriginOf(a)) == FileEntry(r, OriginOf(b))
    ensures SymbolEntry(r, OriginOf(a)) == SymbolEntry(r, OriginOf(b))
  {
    hide SameSorted;
    var c, d := a.(files := [], symbols := [], capturedAt := 0), b.(files := [], symbols := [], capturedAt := 0);
    assert c == d && c.root == a.root && d.root == b.root && c.provider == a.provider && d.provider == b.provider;
  }

  /** Two arrivals of the same manifests give composites of equal content exactly when,
      under every canonical key that no earlier manifest offers, the manifests of one
      provider and hash offer the same first file and the same first symbol. */
  lemma CompositeExactly(r: Rules, project: string, a: seq<Manifest>, b: seq<Manifest>)
    requires multiset(a) == multiset(b) && CollisionFree(r, a)
    ensures |Normalise(r, a)| == |Normalise(r, b)|
    ensures SameComposite(Merge(r, project, Normalise(r, a)), Merge(r, project, Normalise(r, b))) <==>
            LeadersAgree(r, Normalise(r, a), Normalise(r, b))
  {
    hide Normalise, Merge, LeadersAgree, Ascending;
    ArrivalOrderForgotten(r, a, b);
    NormaliseKeys(r, a);
    NormaliseKeys(r, b);
    AlignedComposite(r, project, Normalise(r, a), Normalise(r, b));
  }

  lemma AlignedComposite(r: Rules, project: string, x: seq<Manifest>, y: seq<Manifest>)
    requires Aligned(r, x, y) && Ascending(r, x) && Ascending(r, y)
    ensures SameComposite(Merge(r, project, x), Merge(r, project, y)) <==> LeadersAgree(r, x, y)
  {
    hide AllFiles, AllSymbols, KeepFirst, Values, Aligned, Ascending, Sort, Revisions, FirstRoot, ByProvider,
      MergedStatus, SameSorted, FileAt, SymbolAt, Get;
    AlignedLength(r, x, y);
    SortSorted(r, x);
    SortSorted(r, y);
    AlignedFields(r, x, y);
    AlignedRoot(r, x, y);
    AlignedStatus(r, x, y);
    AlignedSources(r, x, y);
    KeptFiles(r, x, y);
    KeptSymbols(r, x, y);
    AgreeFiles(r, x, y);
    AgreeSymbols(r, x, y);
    var c, d := Merge(r, project, x), Merge(r, project, y);
    if SameSorted(c.files, d.files, RawPath) && SameSorted(c.symbols, d.symbols, RawName) {
      SameEmpty(c.files, d.files, RawPath);
      SameEmpty(c.symbols, d.symbols, RawName);
    }
  }

  lemma AlignedLength(r: Rules, x: seq<Manifest>, y: seq<Manifest>)
    requires Aligned(r, x, y)
    ensures |x| == |y|
  {
  }

  lemma AlignedSources(r: Rules, x: seq<Manifest>, y: seq<Manifest>)
    requires Aligned(r, x, y)
    ensures Sources(x) == Sources(y)
  {
    hide SameContent;
    forall i | 0 <= i < |x| ensures x[i].provider == y[i].provider {
      SameHeader(r, x, y, i);
    }
  }

  lemma AgreeFiles(r: Rules, x: seq<Manifest>, y: seq<Manifest>)
    requires Aligned(r, x, y)
    ensures SameGets(AllFiles(r, x), AllFiles(r, y)) <==>
            forall i, k :: 0 <= i < |x| && Get(AllFiles(r, x[..i]), k).None? ==>
              FileAt(r, x[i], k) == FileAt(r, y[i], k)
  {
    hide SameContent, Get, FilesOf, KeyOf, Flat;
    if SameGets(AllFiles(r, x), AllFiles(r, y)) {
      forall i, k | 0 <= i < |x| && Get(AllFiles(r, x[..i]), k).None? ensures FileAt(r, x[i], k) == FileAt(r, y[i], k) {
        SameGetsAt(AllFiles(r, x), AllFiles(r, y), k);
        AgreeFilesAt(r, x, y, k);
      }
    } else {
      var k :| Get(AllFiles(r, x), k) != Get(AllFiles(r, y), k);
      AgreeFilesAt(r, x, y, k);
    }
  }

  lemma AgreeFilesAt(r: Rules, x: seq<Manifest>, y: seq<Manifest>, k: string)
    requires Aligned(r, x, y)
    ensures Get(AllFiles(r, x), k) == Get(AllFiles(r, y), k) <==>
            forall i :: 0 <= i < |x| && Get(AllFiles(r, x[..i]), k).None? ==> FileAt(r, x[i], k) == FileAt(r, y[i], k)
  {
    hide SameContent, Get, FilesOf, KeyOf, Flat;
    var xs, ys := FileColumns(r, x), FileColumns(r, y);
    forall i | 0 <= i < |x|
      ensures (Get(xs[i], k).Some? <==> Get(ys[i], k).Some?) && AllFiles(r, x[..i]) == Flat(xs[..i])
    {
      SameFileEntry(r, x[i], y[i], k);
      assert FileColumns(r, x[..i]) == xs[..i];
    }
    FlatExactly(xs, ys, k);
  }

  lemma AgreeSymbols(r: Rules, x: seq<Manifest>, y: seq<Manifest>)
    requires Aligned(r, x, y)
    ensures SameGets(AllSymbols(r, x), AllSymbols(r, y)) <==>
            forall i, k :: 0 <= i < |x| && Get(AllSymbols(r, x[..i]), k).None? ==>
              SymbolAt(r, x[i], k) == SymbolAt(r, y[i], k)
  {
    hide SameContent, Get, SymbolsOf, KeyOf, Flat;
    if SameGets(AllSymbols(r, x), AllSymbols(r, y)) {
      forall i, k | 0 <= i < |x| && Get(AllSymbols(r, x[..i]), k).None?
        ensures SymbolAt(r, x[i], k) == SymbolAt(r, y[i], k)
      {
        SameGetsAt(AllSymbols(r, x), AllSymbols(r, y), k);
        AgreeSymbolsAt(r, x, y, k);
      }
    } else {
      var k :| Get(AllSymbols(r, x), k) != Get(AllSymbols(r, y), k);
      AgreeSymbolsAt(r, x, y, k);
    }
  }

  lemma AgreeSymbolsAt(r: Rules, x: seq<Manifest>, y: seq<Manifest>, k: (string, string))
    requires Aligned(r, x, y)
    ensures Get(AllSymbols(r, x), k) == Get(AllSymbols(r, y), k) <==>
            forall i :: 0 <= i < |x| && Get(AllSymbols(r, x[..i]), k).None? ==>
              SymbolAt(r, x[i], k) == SymbolAt(r, y[i], k)
  {
    hide SameContent, Get, SymbolsOf, KeyOf, Flat;
    var xs, ys := SymbolColumns(r, x), SymbolColumns(r, y);
    forall i | 0 <= i < |x|
      ensures (Get(xs[i], k).Some? <==> Get(ys[i], k).Some?) && AllSymbols(r, x[..i]) == Flat(xs[..i])
    {
      SameSymbolEntry(r, x[i], y[i], k);
      assert SymbolColumns(r, x[..i]) == xs[..i];
    }
    FlatExactly(xs, ys, k);
  }

  lemma {:induction false} AlignedHaving(r: Rules, x: seq<Manifest>, y: seq<Manifest>)
    requires Aligned(r, x, y)
    ensures Aligned(r, Having(x, IsComposite, false), Having(y, IsComposite, false))
    decreases |x|
  {
    hide SameContent, KeyOf;
    if x != [] {
      var n := |x| - 1;
      SameHeader(r, x, y, n);
      AlignedHaving(r, x[..n], y[..n]);
    }
  }

  lemma {:induction false} AscendingHaving(r: Rules, x: seq<Manifest>)
    requires Ascending(r, x)
    ensures Ascending(r, Having(x, IsComposite, false))
    decreases |x|
  {
    hide AtMost, KeyOf;
    if x != [] {
      var n := |x| - 1;
      AscendingHaving(r, x[..n]);
      forall m | m in Having(x[..n], IsComposite, false) ensures AtMost(KeyOf(r, m), KeyOf(r, x[n])) {
        HavingExact(x[..n], IsComposite, false, m);
      }
    }
  }

  lemma AlignedInputs(r: Rules, x: seq<Manifest>, y: seq<Manifest>)
    requires Aligned(r, x, y) && Ascending(r, x) && Ascending(r, y)
    ensures Aligned(r, Inputs(x), Inputs(y)) && Ascending(r, Inputs(x)) && Ascending(r, Inputs(y))
  {
    hide SameContent, KeyOf, Ascending, Having;
    AlignedHaving(r, x, y);
    AscendingHaving(r, x);
    AscendingHaving(r, y);
  }

  /** The same for the composite of a verification run. */
  lemma RunCompositeExactly(r: Rules, project: string, a: seq<Manifest>, b: seq<Manifest>)
    requires multiset(a) == multiset(b) && CollisionFree(r, a)
    ensures var x, y := Normalise(r, a), Normalise(r, b);
            |Inputs(x)| == |Inputs(y)|
            && (SameComposite(CompositeOf(r, project, x), CompositeOf(r, project, y)) <==>
               LeadersAgree(r, Inputs(x), Inputs(y)))
  {
    hide Normalise, Merge, LeadersAgree, Ascending, Inputs;
    ArrivalOrderForgotten(r, a, b);
    NormaliseKeys(r, a);
    NormaliseKeys(r, b);
    var x, y := Normalise(r, a), Normalise(r, b);
    AlignedInputs(r, x, y);
    AlignedComposite(r, project, Inputs(x), Inputs(y));
  }

  /** No two files, and no two symbols, of one manifest meet only after normalisation. */
  predicate NoClash(r: Rules, m: Manifest) {
    Clear(m.files, RawPath, FileEntry(r, OriginOf(m))) && Clear(m.symbols, RawName, SymbolEntry(r, OriginOf(m)))
  }

  lemma EntryKeyed(r: Rules, m: Manifest)
    ensures Keyed(m.files, RawPath, FileEntry(r, OriginOf(m))) && Keyed(m.symbols, RawName, SymbolEntry(r, OriginOf(m)))
  {
  }

  lemma ClearAgrees(r: Rules, a: Manifest, b: Manifest)
    requires SameContent(a, b) && NoClash(r, a)
    ensures forall path :: FileAt(r, a, path) == FileAt(r, b, path)
    ensures forall k :: SymbolAt(r, a, k) == SymbolAt(r, b, k)
  {
    hide SameSorted, Clear, Keyed, Get, Mapped, FileEntry, SymbolEntry;
    SameEntries(r, a, b);
    EntryKeyed(r, a);
    forall path ensures FileAt(r, a, path) == FileAt(r, b, path) {
      SameEntry(a.files, b.files, RawPath, FileEntry(r, OriginOf(a)), path);
    }
    forall k ensures SymbolAt(r, a, k) == SymbolAt(r, b, k) {
      SameEntry(a.symbols, b.symbols, RawName, SymbolEntry(r, OriginOf(a)), k);
    }
  }

  /** So the composite, and with it its hash, is the same for every order of arrival when
      no manifest has two entries that meet only after normalisation; and it is the very
      same value when equal keys mean equal manifests. */
  lemma MergeForgetsOrder(r: Rules, project: string, a: seq<Manifest>, b: seq<Manifest>)
    requires multiset(a) == multiset(b)
    ensures CollisionFree(r, a) && (forall m :: m in a ==> NoClash(r, m)) ==>
              SameComposite(Merge(r, project, Normalise(r, a)), Merge(r, project, Normalise(r, b)))
    ensures KeysIdentify(r, a) ==> Merge(r, project, Normalise(r, a)) == Merge(r, project, Normalise(r, b))
  {
    hide Normalise, Merge, NoClash, KeyOf, KeysIdentify;
    if CollisionFree(r, a) && forall m :: m in a ==> NoClash(r, m) {
      CompositeExactly(r, project, a, b);
      ArrivalOrderForgotten(r, a, b);
      NormaliseKeys(r, a);
      var x, y := Normalise(r, a), Normalise(r, b);
      forall i | 0 <= i < |x|
        ensures forall path :: FileAt(r, x[i], path) == FileAt(r, y[i], path)
        ensures forall k :: SymbolAt(r, x[i], k) == SymbolAt(r, y[i], k)
      {
        assert x[i] in x;
        ClearAgrees(r, x[i], y[i]);
      }
    }
    if KeysIdentify(r, a) {
      SameLeaders(r, a, b);
    }
  }

  lemma SameLeaders(r: Rules, a: seq<Manifest>, b: seq<Manifest>)
    requires multiset(a) == multiset(b) && KeysIdentify(r, a)
    ensures Normalise(r, a) == Normalise(r, b)
  {
    hide Normalise, Leads;
    forall m ensures m in a <==> m in b {
      assert m in multiset(a) <==> m in a;
      assert m in multiset(b) <==> m in b;
    }
    forall i, j | 0 <= i < |b| && 0 <= j < |b| && KeyOf(r, b[i]) == KeyOf(r, b[j]) ensures b[i] == b[j] {
      assert b[i] in a && b[j] in a;
      IdentifyIn(r, a, b[i], b[j]);
    }
    forall m ensures Leads(r, a, m) <==> Leads(r, b, m) {
      IdentifyLeads(r, a, m);
      IdentifyLeads(r, b, m);
    }
    NormaliseExactly(r, a, b);
  }

  /** The file loops of `merge`: one dictionary across all rows. */
  method CollectFiles(r: Rules, rows: seq<Manifest>) returns (kept: seq<(string, File)>)
    ensures kept == KeepFirst(AllFiles(r, rows))
  {
    hide KeepFirst, HasKey, Mapped, AllFiles, CanonicalFile, FileEntry;
    kept := [];
    NoFiles(r, rows);
    var files: map<string, File> := map[];
    var i := 0;
    while i < |rows|
      invariant i <= |rows| && kept == KeepFirst(AllFiles(r, rows[..i]))
      invariant forall k :: k in files <==> HasKey(kept, k)
    {
      var m := rows[i];
      ghost var before := AllFiles(r, rows[..i]);
      RowStep(r, rows, i);
      var j := 0;
      while j < |m.files|
        invariant j <= |m.files| && kept == KeepFirst(before + Mapped(m.files[..j], FileEntry(r, OriginOf(m))))
        invariant forall k :: k in files <==> HasKey(kept, k)
      {
        var f := CanonicalFile(r, OriginOf(m), m.files[j]);
        FilesStep(r, m, before, j);
        if f.path != "" && f.path !in files {
          forall k ensures HasKey(kept + [(f.path, f)], k) <==> HasKey(kept, k) || k == f.path {
            HasKeyMore(kept, (f.path, f), k);
          }
          files := files[f.path := f];
          kept := kept + [(f.path, f)];
        }
        j := j + 1;
      }
      assert m.files[..j] == m.files;
      i := i + 1;
    }
    assert rows[..i] == rows;
  }

  lemma NoFiles(r: Rules, rows: seq<Manifest>)
    ensures KeepFirst(AllFiles(r, rows[..0])) == [] && forall k: string :: !HasKey<string, File>([], k)
  {
  }

  lemma RowStep(r: Rules, rows: seq<Manifest>, i: nat)
    requires i < |rows|
    ensures AllFiles(r, rows[..i]) + Mapped(rows[i].files[..0], FileEntry(r, OriginOf(rows[i]))) ==
            AllFiles(r, rows[..i])
    ensures AllFiles(r, rows[..i + 1]) ==
            AllFiles(r, rows[..i]) + Mapped(rows[i].files, FileEntry(r, OriginOf(rows[i])))
  {
    hide FileEntry;
    var columns := FileColumns(r, rows[..i + 1]);
    assert columns[..i] == FileColumns(r, rows[..i]) && columns[i] == FilesOf(r, rows[i]);
  }

  lemma FilesStep(r: Rules, m: Manifest, before: seq<(string, File)>, j: nat)
    requires j < |m.files|
    ensures var items := before + Mapped(m.files[..j], FileEntry(r, OriginOf(m)));
            var f := CanonicalFile(r, OriginOf(m), m.files[j]);
            KeepFirst(before + Mapped(m.files[..j + 1], FileEntry(r, OriginOf(m)))) ==
            if f.path == "" || HasKey(KeepFirst(items), f.path) then KeepFirst(items)
            else KeepFirst(items) + [(f.path, f)]
  {
    hide CanonicalFile, Mapped, HasKey;
    var f := CanonicalFile(r, OriginOf(m), m.files[j]);
    var items := before + Mapped(m.files[..j], FileEntry(r, OriginOf(m)));
    MappedSnoc(m.files, FileEntry(r, OriginOf(m)), j);
    if f.path != "" {
      var e := (f.path, f);
      assert before + Mapped(m.files[..j + 1], FileEntry(r, OriginOf(m))) == items + [e];
      assert (items + [e])[..|items|] == items;
    } else {
      assert before + Mapped(m.files[..j + 1], FileEntry(r, OriginOf(m))) == items;
    }
  }

  /** The status precedence, read off the inputs in any order. */
  lemma MergedStatusExactly(r: Rules, project: string, a: seq<Manifest>)
    ensures var c := Merge(r, project, a);
            var s := c.status;
            && (s == Ready <==> (exists m :: m in a && m.status.Ready?) && (c.files != [] || c.symbols != []))
            && (s == Unavailable <==> forall m :: m in a ==> m.status.Unavailable?)
            && (s == Failed <==>
                && (exists m :: m in a && m.status.Failed?)
                && forall m :: m in a ==> m.status.Failed? || m.status.Unavailable?)
  {
    hide AllFiles, AllSymbols, KeepFirst, Revisions, FirstRoot, ByProvider, Values;
    var rows := Sort(r, a);
    SortAscending(r, a);
    forall m ensures m in rows <==> m in a {
      assert m in multiset(rows) <==> m in rows;
      assert m in multiset(a) <==> m in a;
    }
  }

  /** What stands beside the lists: the first root given, one source a row, and of every
      provider the status and the hash of its last row. */
  lemma HeaderExactly(r: Rules, project: string, a: seq<Manifest>)
    ensures var c, rows := Merge(r, project, a), Sort(r, a);
            && c.project == project
            && (c.root == "" <==> forall m :: m in rows ==> m.root == "")
            && (c.root != "" ==> exists i :: FirstRooted(rows, i) && c.root == rows[i].root)
            && |c.sources| == |rows| && (forall i :: 0 <= i < |rows| ==> c.sources[i] == rows[i].provider)
            && (forall p :: p in c.statuses <==> exists m :: m in rows && m.provider == p)
            && c.hashes.Keys == c.statuses.Keys
            && (forall i :: LastOfProvider(rows, i) ==>
                  rows[i].provider in c.statuses
                  && c.statuses[rows[i].provider] == rows[i].status
                  && c.hashes[rows[i].provider] == r.hash(rows[i]))
  {
    hide AllFiles, AllSymbols, KeepFirst, Revisions, FirstRoot, ByProvider, Values, Sort;
    var rows := Sort(r, a);
    FirstRootExactly(rows);
    ByProviderExactly(rows, StatusOf);
    ByProviderExactly(rows, r.hash);
    assert (Merge(r, project, a).hashes).Keys == Merge(r, project, a).statuses.Keys;
  }

  /** The revisions of the rows, each once and without blanks. */
  lemma RevisionsExactly(r: Rules, project: string, a: seq<Manifest>)
    ensures var c, rows := Merge(r, project, a), Sort(r, a);
            && (forall i, j :: 0 <= i < j < |c.revisions| ==> c.revisions[i] != c.revisions[j])
            && (forall v :: v in c.revisions <==> v != "" && exists m :: m in rows && m.revision == v)
  {
    hide AllFiles, AllSymbols, FirstRoot, ByProvider, Sort, KeepFirst, Revisions;
    var all := Revisions(Sort(r, a));
    RevisionPairs(Sort(r, a));
    KeepFirstDistinct(all);
    forall e ensures e in KeepFirst(all) ==> e in all {
      KeepFirstExact(all, e);
    }
    var kept := KeepFirst(all);
    forall i | 0 <= i < |kept| ensures kept[i].0 == kept[i].1 {
      assert kept[i] in kept;
    }
    forall v ensures v in Values(kept) <==> (v, v) in all {
      if v in Values(kept) {
        var i :| 0 <= i < |kept| && kept[i].1 == v;
        assert kept[i] == (v, v) && kept[i] in kept;
      }
      if (v, v) in all {
        KeepFirstExact(all, (v, v));
        var i :| 0 <= i < |kept| && kept[i].0 == v;
        assert Values(kept)[i] == v;
      }
    }
  }

  lemma {:induction false} RevisionPairs(rows: seq<Manifest>)
    ensures forall e :: e in Revisions(rows) ==> e.0 == e.1
    ensures forall v :: (v, v) in Revisions(rows) <==> v != "" && exists m :: m in rows && m.revision == v
    decreases |rows|
  {
    if rows != [] {
      var before, last := rows[..|rows| - 1], rows[|rows| - 1];
      RevisionPairs(before);
      assert rows == before + [last];
      forall v ensures (v, v) in Revisions(rows) <==> v != "" && exists m :: m in rows && m.revision == v {
        assert (exists m :: m in rows && m.revision == v)
            <==> ((exists m :: m in before && m.revision == v) || last.revision == v);
      }
    }
  }

  predicate FirstRooted(rows: seq<Manifest>, i: int) {
    0 <= i < |rows| && rows[i].root != "" && forall j :: 0 <= j < i ==> rows[j].root == ""
  }

  predicate LastOfProvider(rows: seq<Manifest>, i: int) {
    0 <= i < |rows| && forall j :: i < j < |rows| ==> rows[j].provider != rows[i].provider
  }

  lemma {:induction false} FirstRootExactly(rows: seq<Manifest>)
    ensures FirstRoot(rows) == "" <==> forall m :: m in rows ==> m.root == ""
    ensures FirstRoot(rows) != "" ==> exists i :: FirstRooted(rows, i) && FirstRoot(rows) == rows[i].root
  {
    if rows != [] {
      assert rows == [rows[0]] + rows[1..];
      if rows[0].root != "" {
        assert FirstRooted(rows, 0);
      } else {
        FirstRootExactly(rows[1..]);
        if FirstRoot(rows) != "" {
          var i :| FirstRooted(rows[1..], i) && FirstRoot(rows[1..]) == rows[1..][i].root;
          assert FirstRooted(rows, i + 1);
        }
      }
    }
  }

  lemma {:induction false} ByProviderExactly<T>(rows: seq<Manifest>, f: Manifest -> T)
    ensures forall p :: p in ByProvider(rows, f) <==> exists m :: m in rows && m.provider == p
    ensures forall i :: LastOfProvider(rows, i) ==>
              rows[i].provider in ByProvider(rows, f) && ByProvider(rows, f)[rows[i].provider] == f(rows[i])
    decreases |rows|
  {
    if rows != [] {
      var n := |rows| - 1;
      var before, last := rows[..n], rows[n];
      ByProviderExactly(before, f);
      assert rows == before + [last];
      forall p ensures p in ByProvider(rows, f) <==> exists m :: m in rows && m.provider == p {
        assert last in rows;
        assert forall m :: m in rows <==> m in before || m == last;
      }
      forall i | LastOfProvider(rows, i)
        ensures rows[i].provider in ByProvider(rows, f) && ByProvider(rows, f)[rows[i].provider] == f(rows[i])
      {
        if i < n {
          assert LastOfProvider(before, i) && before[i] == rows[i];
        }
      }
    }
  }

  /** A verification run merges what the providers sent, in order, and composites only
      if nothing else was sent. */
  lemma InputsExactly(rows: seq<Manifest>)
    ensures (forall m :: m in rows ==> m.provider == Composite) ==> Inputs(rows) == rows
    ensures (exists m :: m in rows && m.provider != Composite) ==>
            forall m :: m in Inputs(rows) <==> m in rows && m.provider != Composite
    ensures forall m :: m in rows && m.provider != Composite ==>
              multiset(Inputs(rows))[m] == multiset(rows)[m]
  {
    forall m ensures m in Having(rows, IsComposite, false) <==> m in rows && m.provider != Composite {
      HavingExact(rows, IsComposite, false, m);
    }
    forall m | m in rows && m.provider != Composite
      ensures multiset(Inputs(rows))[m] == multiset(rows)[m]
    {
      HavingKeepsAll(rows, m);
    }
  }

  lemma {:induction false} HavingKeepsAll(rows: seq<Manifest>, m: Manifest)
    requires !IsComposite(m)
    ensures multiset(Having(rows, IsComposite, false))[m] == multiset(rows)[m]
    decreases |rows|
  {
    if rows != [] {
      var before := rows[..|rows| - 1];
      HavingKeepsAll(before, m);
      assert rows == before + [rows[|rows| - 1]];
    }
  }

  /** Each canonical path is in the composite once, from the first row that has it. */
  lemma MergedFiles(r: Rules, project: string, a: seq<Manifest>, e: (string, File))
    ensures var all := AllFiles(r, Sort(r, a));
            && Merge(r, project, a).files == Values(KeepFirst(all)) && DistinctKeys(KeepFirst(all))
            && (e in KeepFirst(all) <==> FirstOfKey(all, e))
  {
    KeepFirstDistinct(AllFiles(r, Sort(r, a)));
    KeepFirstExact(AllFiles(r, Sort(r, a)), e);
  }

  /******* Where arrival order shows *******/

  function OneFile(path: string): File { File(path, true, "", "", path, None) }

  function TwoFiles(first: string, second: string): Manifest {
    Manifest(P4, "p", "", "", "", Ready, [OneFile(first), OneFile(second)], [], map[], 0)
  }

  lemma TwoByPath(first: string, second: string, path: string)
    ensures Having([OneFile(first), OneFile(second)], RawPath, path) ==
            (if first == path then [OneFile(first)] else []) + (if second == path then [OneFile(second)] else [])
  {
    var fs := [OneFile(first), OneFile(second)];
    assert fs[..1] == [OneFile(first)] && fs[..1][..0] == [];
    assert Having(fs[..1], RawPath, path) == if first == path then [OneFile(first)] else [];
    assert Having(fs, RawPath, path) ==
           Having(fs[..1], RawPath, path) + if second == path then [OneFile(second)] else [];
  }

  /** Two manifests with the same content hash whose files collide only after path
      normalisation: the order of arrival decides which file the composite keeps. */
  lemma ArrivalOrderShows(r: Rules, one: string, two: string)
    requires one != two && r.path(one, "") == r.path(two, "") != ""
    requires forall a, b :: SameContent(a, b) ==> r.hash(a) == r.hash(b)
    ensures var a, b := TwoFiles(one, two), TwoFiles(two, one);
            && SameContent(a, b) && multiset([a, b]) == multiset([b, a])
            && !SameComposite(Merge(r, "p", Normalise(r, [a, b])), Merge(r, "p", Normalise(r, [b, a])))
  {
    hide Merge, Normalise, Having, KeyOf, SameSorted;
    var a, b := TwoFiles(one, two), TwoFiles(two, one);
    SwappedContent(one, two);
    assert KeyOf(r, a) == KeyOf(r, b) by { SameKey(r, a, b); }
    FirstOfTwo(r, a, b);
    FirstOfTwo(r, b, a);
    CollidingFiles(r, one, two);
    CollidingFiles(r, two, one);
    assert multiset([a, b]) == multiset{a, b} == multiset([b, a]);
    var c, d := Merge(r, "p", [a]), Merge(r, "p", [b]);
    OtherFile(c.files, d.files);
  }

  lemma OtherFile(x: seq<File>, y: seq<File>)
    requires |x| == |y| == 1 && x[0].rest != y[0].rest
    ensures !SameSorted(x, y, RawPath)
  {
    HavingExact(x, RawPath, x[0].path, x[0]);
    HavingExact(y, RawPath, x[0].path, x[0]);
    assert Having(x, RawPath, x[0].path) != Having(y, RawPath, x[0].path);
  }

  lemma SameKey(r: Rules, a: Manifest, b: Manifest)
    requires a.provider == b.provider && r.hash(a) == r.hash(b)
    ensures KeyOf(r, a) == KeyOf(r, b)
  {
  }

  lemma SwappedContent(one: string, two: string)
    requires one != two
    ensures SameContent(TwoFiles(one, two), TwoFiles(two, one))
  {
    hide Having;
    var a, b := TwoFiles(one, two), TwoFiles(two, one);
    forall path ensures Having(a.files, RawPath, path) == Having(b.files, RawPath, path) {
      TwoByPath(one, two, path);
      TwoByPath(two, one, path);
    }
    assert a.(files := [], symbols := [], capturedAt := 0) == b.(files := [], symbols := [], capturedAt := 0);
  }

  lemma FirstOfTwo(r: Rules, a: Manifest, b: Manifest)
    requires KeyOf(r, a) == KeyOf(r, b)
    ensures Normalise(r, [a, b]) == [a]
  {
    var ks := WithKeys(r, [a, b]);
    assert ks[..1][..0] == [] && ks[..1][0] == (KeyOf(r, a), a);
    assert KeepFirst(ks[..1]) == [(KeyOf(r, a), a)];
    assert HasKey(KeepFirst(ks[..1]), KeyOf(r, b)) by { assert KeepFirst(ks[..1])[0].0 == KeyOf(r, b); }
    assert KeepFirst(ks) == [(KeyOf(r, a), a)];
    assert Distinct(r, [a, b]) == [a];
    SortOne(r, a);
  }

  lemma SortOne(r: Rules, a: Manifest)
    ensures Sort(r, [a]) == [a]
  {
    assert [a][..0] == [];
  }

  lemma FilesOfTwo(r: Rules, m: Manifest)
    requires |m.files| == 2 && CanonicalFile(r, OriginOf(m), m.files[0]).path != ""
             && CanonicalFile(r, OriginOf(m), m.files[1]).path != ""
    ensures var x, y := CanonicalFile(r, OriginOf(m), m.files[0]), CanonicalFile(r, OriginOf(m), m.files[1]);
            AllFiles(r, [m]) == [(x.path, x), (y.path, y)]
  {
    hide CanonicalFile;
    var x, y := CanonicalFile(r, OriginOf(m), m.files[0]), CanonicalFile(r, OriginOf(m), m.files[1]);
    var f := FileEntry(r, OriginOf(m));
    assert m.files[..1][..0] == [];
    assert Mapped(m.files[..1], f) == [(x.path, x)];
    assert Mapped(m.files, f) == [(x.path, x)] + [(y.path, y)];
    var columns := FileColumns(r, [m]);
    assert columns[..0] == [];
    assert Flat(columns) == [] + columns[0];
  }

  lemma FirstOfPair<K, V>(x: (K, V), y: (K, V))
    requires x.0 == y.0
    ensures KeepFirst([x, y]) == [x]
  {
    var items := [x, y];
    assert items[..1][..0] == [] && items[..1] == [x];
    assert KeepFirst(items[..1]) == [x];
    assert HasKey([x], y.0) by { assert [x][0].0 == y.0; }
  }

  lemma CollidingFiles(r: Rules, first: string, second: string)
    requires r.path(first, "") == r.path(second, "") != ""
    ensures Merge(r, "p", [TwoFiles(first, second)]).files == [File(r.path(first, ""), true, "", "", first, Some(P4))]
  {
    hide AllFiles, KeepFirst, Sort, AllSymbols, Revisions, MergedStatus, FirstRoot, ByProvider;
    var m := TwoFiles(first, second);
    SortOne(r, m);
    FilesOfTwo(r, m);
    var x, y := CanonicalFile(r, OriginOf(m), m.files[0]), CanonicalFile(r, OriginOf(m), m.files[1]);
    FirstOfPair((x.path, x), (y.path, y));
  }
}
