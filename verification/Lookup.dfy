/** The lookup index of a manifest against a linear scan of it
    (src/codememory/verification/providers.py:123-203). */
module Lookup {
  import opened Base
  import opened Manifest

  /** Path rules, case folding, symbol normalisation, the last dotted part of a name, and
      what is no source path at all. */
  datatype Names = Names(rules: Rules, fold: string -> string, symbol: string -> string, last: string -> string,
                         placeholder: string -> bool)

  datatype MatchType = NoMatch | Qualified | Short

  datatype SymbolMatch = SymbolMatch(entry: Option<Symbol>, kind: MatchType)

  /******* The linear scan *******/

  function FilePresent(f: File): bool { f.present }

  function IsPresent(s: Symbol): bool { s.present }

  function Present(items: seq<Symbol>): seq<Symbol> { Having(items, IsPresent, true) }

  /** The first candidate that exists, else the first one. */
  function Preferred<T>(items: seq<T>, present: T -> bool): (r: Option<T>)
    ensures r.None? <==> items == []
    ensures r.Some? ==> r.value in items
    ensures r.Some? && !present(r.value) ==> r.value == items[0] && forall e :: e in items ==> !present(e)
  {
    if items == [] then None
    else if FirstPresent(items, present).Some? then FirstPresent(items, present) else Some(items[0])
  }

  function FirstPresent<T>(items: seq<T>, present: T -> bool): (r: Option<T>)
    ensures r.Some? ==> r.value in items && present(r.value)
    ensures r.None? ==> forall e :: e in items ==> !present(e)
  {
    if items == [] then None else if present(items[0]) then Some(items[0]) else FirstPresent(items[1..], present)
  }

  function PathKey(n: Names, root: string, path: string): string { n.fold(n.rules.path(path, root)) }

  function SymbolKey(n: Names, name: string): string { n.fold(n.symbol(name)) }

  function FullKey(n: Names, s: Symbol): string { SymbolKey(n, FullName(s)) }

  function ShortKey(n: Names, s: Symbol): string { SymbolKey(n, n.last(s.name)) }

  function ByFile(n: Names, root: string): File -> string { (f: File) => PathKey(n, root, f.path) }

  function ByFull(n: Names): Symbol -> string { (s: Symbol) => FullKey(n, s) }

  function ByShort(n: Names): Symbol -> string { (s: Symbol) => ShortKey(n, s) }

  /** Every file of the manifest with this key; an empty key names none. */
  function FilesAt(n: Names, m: Manifest, k: string): seq<File> {
    if k == "" then [] else Having(m.files, ByFile(n, m.root), k)
  }

  function SymbolsAt(n: Names, m: Manifest, k: string): seq<Symbol> {
    if k == "" then [] else Having(m.symbols, ByFull(n), k)
  }

  function ShortsAt(n: Names, m: Manifest, k: string): seq<Symbol> {
    if k == "" then [] else Having(m.symbols, ByShort(n), k)
  }

  function ScanPath(n: Names, m: Manifest, value: string): Option<File> {
    var normalized := n.rules.path(value, m.root);
    if normalized == "" then None
    else Preferred(FilesAt(n, m, n.fold(normalized)), FilePresent)
  }

  function PathsOf(n: Names, root: string, items: seq<Symbol>): set<string> {
    set s | s in items && s.path != "" :: PathKey(n, root, s.path)
  }

  function ScanSymbol(n: Names, m: Manifest, value: string, qualified: string): SymbolMatch {
    var full, plain := n.symbol(qualified), n.symbol(value);
    var exact := SymbolsAt(n, m, SymbolKey(n, if full != "" then full else plain));
    if exact != [] then SymbolMatch(Preferred(exact, IsPresent), Qualified)
    else
      var short := n.last(if plain != "" then plain else full);
      var existing := if short == "" then [] else Present(ShortsAt(n, m, SymbolKey(n, short)));
      if |existing| == 1 || (existing != [] && |PathsOf(n, m.root, existing)| == 1)
      then SymbolMatch(Some(existing[0]), Short)
      else SymbolMatch(None, NoMatch)
  }

  /** A short-name match exists, has the requested short name, and every other existing
      candidate with a path lies in the same file. */
  lemma ShortMatchIsUnambiguous(n: Names, m: Manifest, value: string, qualified: string)
    requires ScanSymbol(n, m, value, qualified).kind == Short
    ensures var e := ScanSymbol(n, m, value, qualified).entry.value;
            && e in m.symbols && e.present
            && n.fold(n.symbol(n.last(e.name)))
               == n.fold(n.symbol(n.last(if n.symbol(value) != "" then n.symbol(value) else n.symbol(qualified))))
            && forall o :: o in m.symbols && o.present && ShortKey(n, o) == ShortKey(n, e)
                           && o.path != "" && e.path != "" ==>
                 PathKey(n, m.root, o.path) == PathKey(n, m.root, e.path)
  {
    hide SymbolKey, PathKey;
    var full, plain := n.symbol(qualified), n.symbol(value);
    var short := n.last(if plain != "" then plain else full);
    var k := SymbolKey(n, short);
    var shorts := ShortsAt(n, m, k);
    var existing := Present(shorts);
    assert k != "" && existing != [];
    var e := existing[0];
    forall o ensures o in existing <==> o in m.symbols && o.present && ShortKey(n, o) == k {
      HavingExact(shorts, IsPresent, true, o);
      HavingExact(m.symbols, ByShort(n), k, o);
    }
    assert e in existing;
    ShortKeyOf(n, e);
    assert k == n.fold(n.symbol(short)) by { SymbolKeyOf(n, short); }
    forall o | o in existing && o.path != "" && e.path != ""
      ensures PathKey(n, m.root, o.path) == PathKey(n, m.root, e.path)
    {
      if |existing| == 1 {
        assert o == existing[0];
      } else {
        assert PathKey(n, m.root, o.path) in PathsOf(n, m.root, existing)
          && PathKey(n, m.root, e.path) in PathsOf(n, m.root, existing);
        SoleElement(PathsOf(n, m.root, existing), PathKey(n, m.root, o.path), PathKey(n, m.root, e.path));
      }
    }
  }

  lemma ShortKeyOf(n: Names, s: Symbol)
    ensures ShortKey(n, s) == n.fold(n.symbol(n.last(s.name)))
  {
  }

  lemma SymbolKeyOf(n: Names, name: string)
    ensures SymbolKey(n, name) == n.fold(n.symbol(name))
  {
  }

  lemma SoleElement<T>(s: set<T>, a: T, b: T)
    requires |s| == 1 && a in s && b in s
    ensures a == b
  {
    assert |s - {a}| == 0;
  }

  /******* The index *******/

  /** A dictionary of lists holds under every key the items the scan would find. */
  ghost predicate Indexes<T(!new)>(index: map<string, seq<T>>, items: seq<T>, key: T -> string) {
    && (forall k :: k in index <==> k != "" && Having(items, key, k) != [])
    && (forall k :: k in index ==> index[k] == Having(items, key, k))
  }

  /** `defaultdict(list)` filled in one pass. */
  method BuildIndex<T(!new)>(items: seq<T>, key: T -> string) returns (index: map<string, seq<T>>)
    ensures Indexes(index, items, key)
  {
    index := map[];
    var i := 0;
    while i < |items|
      invariant i <= |items| && Indexes(index, items[..i], key)
    {
      assert items[..i + 1][..i] == items[..i];
      var k := key(items[i]);
      if k != "" {
        index := index[k := (if k in index then index[k] else []) + [items[i]]];
      }
      i := i + 1;
    }
    assert items[..i] == items;
  }

  class ManifestIndex {
    const names: Names
    const manifest: Manifest
    var files: map<string, seq<File>>
    var symbols: map<string, seq<Symbol>>
    var shortSymbols: map<string, seq<Symbol>>

    ghost predicate Valid()
      reads this
    {
      && Indexes(files, manifest.files, ByFile(names, manifest.root))
      && Indexes(symbols, manifest.symbols, ByFull(names))
      && Indexes(shortSymbols, manifest.symbols, ByShort(names))
    }

    constructor (names: Names, manifest: Manifest)
      ensures Valid() && this.names == names && this.manifest == manifest
    {
      this.names, this.manifest := names, manifest;
      new;
      files := BuildIndex(manifest.files, ByFile(names, manifest.root));
      symbols := BuildIndex(manifest.symbols, ByFull(names));
      shortSymbols := BuildIndex(manifest.symbols, ByShort(names));
    }

    method LookupPath(value: string) returns (entry: Option<File>)
      requires Valid()
      ensures entry == ScanPath(names, manifest, value)
    {
      var normalized := names.rules.path(value, manifest.root);
      if normalized == "" {
        return None;
      }
      var k := names.fold(normalized);
      var candidates := if k in files then files[k] else [];
      assert candidates == FilesAt(names, manifest, k);
      entry := Preferred(candidates, FilePresent);
    }

    /** The existing symbols under a short name. */
    method ExistingShorts(short: string) returns (existing: seq<Symbol>)
      requires Valid()
      ensures existing == if short == "" then [] else Present(ShortsAt(names, manifest, SymbolKey(names, short)))
    {
      hide SymbolKey, FullKey, PathKey;
      existing := [];
      if short == "" {
        return;
      }
      var k := SymbolKey(names, short);
      var shorts := if k in shortSymbols then shortSymbols[k] else [];
      assert shorts == ShortsAt(names, manifest, k);
      var i := 0;
      while i < |shorts|
        invariant i <= |shorts| && existing == Present(shorts[..i])
      {
        assert shorts[..i + 1][..i] == shorts[..i];
        if shorts[i].present {
          existing := existing + [shorts[i]];
        }
        i := i + 1;
      }
      assert shorts[..i] == shorts;
    }

    method LookupSymbol(value: string, qualified: string) returns (r: SymbolMatch)
      requires Valid()
      ensures r == ScanSymbol(names, manifest, value, qualified)
    {
      hide SymbolKey, ShortKey, PathKey, Present;
      var full, plain := names.symbol(qualified), names.symbol(value);
      var k := SymbolKey(names, if full != "" then full else plain);
      var candidates := if k in symbols then symbols[k] else [];
      assert candidates == SymbolsAt(names, manifest, k);
      if candidates != [] {
        return SymbolMatch(Preferred(candidates, IsPresent), Qualified);
      }
      var existing := ExistingShorts(names.last(if plain != "" then plain else full));
      var paths := PathsOf(names, manifest.root, existing);
      if |existing| == 1 || (existing != [] && |paths| == 1) {
        return SymbolMatch(Some(existing[0]), Short);
      }
      r := SymbolMatch(None, NoMatch);
    }
  }
}
