/** The verdict on one binding, from the submitted manifests to the status
    (src/codememory/verification/service.py:184-425, 443-476). */
module Verify {
  import opened Base
  import opened Manifest
  import opened Lookup
  import Bindings

  /******* The decision *******/

  /** What one provider answers about a binding. */
  datatype Answer = Answer(provider: Provider, status: Status, fullCoverage: bool, pathFound: bool, symbolFound: bool,
                           behind: bool, symbolIndex: bool)

  /** What the binding asks for, and what the composite answers. */
  datatype Question = Question(hasPath: bool, hasSymbol: bool, placeholder: bool, pathFound: bool, symbolFound: bool,
                               pathMismatch: bool)

  datatype Verdict = Verdict(status: Bindings.Status, score: real)

  predicate Usable(a: Answer) { a.status.Ready? || a.status.Partial? }

  predicate Authoritative(answers: seq<Answer>) { exists a :: a in answers && Usable(a) }

  /** Absence means something only if no usable manifest is bounded or partial. */
  predicate AbsenceAuthoritative(answers: seq<Answer>) {
    forall a :: a in answers && Usable(a) ==> a.status.Ready? && a.fullCoverage
  }

  predicate Behind(answers: seq<Answer>) { exists a :: a in answers && a.behind }

  predicate PathKnown(answers: seq<Answer>, p: Provider) { exists a :: a in answers && a.provider == p && a.pathFound }

  predicate SymbolKnown(answers: seq<Answer>, p: Provider) {
    exists a :: a in answers && a.provider == p && a.symbolFound
  }

  predicate SymbolsIndexed(answers: seq<Answer>) { exists a :: a in answers && a.symbolIndex }

  function Evaluate(q: Question, answers: seq<Answer>, absence: bool): Verdict {
    if q.placeholder || (!q.hasPath && !q.hasSymbol) then Verdict(Bindings.Rejected, 0.0)
    else if !Authoritative(answers) then Verdict(Bindings.Unverified, 0.2)
    else if q.hasPath && q.hasSymbol then
      if q.symbolFound then
        if q.pathMismatch then Verdict(Bindings.Renamed, 0.72)
        else if Behind(answers) then Verdict(Bindings.Stale, 0.62)
        else Verdict(Bindings.Verified,
                     if PathKnown(answers, P4) || PathKnown(answers, CodebaseMemory) then 1.0 else 0.86)
      else if q.pathFound && (SymbolsIndexed(answers) || Behind(answers)) then Verdict(Bindings.Stale, 0.58)
      else if q.pathFound then Verdict(Bindings.Unverified, 0.2)
      else if absence then Verdict(Bindings.Missing, 0.0)
      else Verdict(Bindings.Unverified, 0.2)
    else if q.hasPath then
      if q.pathFound then
        if Behind(answers) then Verdict(Bindings.Stale, 0.62)
        else Verdict(Bindings.Verified, if PathKnown(answers, P4) then 1.0 else 0.86)
      else if absence then Verdict(Bindings.Missing, 0.0)
      else Verdict(Bindings.Unverified, 0.2)
    else if q.symbolFound then
      if Behind(answers) then Verdict(Bindings.Stale, 0.62)
      else Verdict(Bindings.Verified, if SymbolKnown(answers, CodebaseMemory) then 1.0 else 0.82)
    else if absence && SymbolsIndexed(answers) then Verdict(Bindings.Missing, 0.0)
    else Verdict(Bindings.Unverified, 0.2)
  }

  /******* What is asked and answered *******/

  datatype Binding = Binding(path: string, symbol: string, qualified: string) {
    predicate AsksSymbol() { symbol != "" || qualified != "" }
  }

  /** The composite as the index sees it: its root and its lists. */
  function View(c: Merged): Manifest {
    Manifest(Filesystem, "", c.root, "", "", Ready, c.files, c.symbols, map[], 0)
  }

  function FoundFile(n: Names, m: Manifest, b: Binding): Option<File> {
    if b.path == "" then None else ScanPath(n, m, b.path)
  }

  function FoundSymbol(n: Names, m: Manifest, b: Binding): Option<Symbol> {
    if b.AsksSymbol() then ScanSymbol(n, m, b.symbol, b.qualified).entry else None
  }

  predicate HasFile(n: Names, m: Manifest, b: Binding) {
    FoundFile(n, m, b).Some? && FoundFile(n, m, b).value.present
  }

  predicate HasSymbol(n: Names, m: Manifest, b: Binding) {
    FoundSymbol(n, m, b).Some? && FoundSymbol(n, m, b).value.present
  }

  const FULL := {"complete", "full", "repository"}

  function Declared(m: Manifest, key: string, default: string): string {
    if key in m.metadata && m.metadata[key] != "" then m.metadata[key] else default
  }

  predicate FullCoverage(n: Names, m: Manifest) { n.fold(Declared(m, "coverage", "complete")) in FULL }

  predicate Indexed(n: Names, m: Manifest) {
    m.symbols != []
    || n.fold(Declared(m, "symbol_coverage", "none")) in FULL + {"selected_file", "selected_files"}
  }

  /** The P4 workspace is not at the head revision of the file found. */
  predicate WorkspaceBehind(n: Names, m: Manifest, b: Binding) {
    var e := FoundFile(n, m, b);
    m.provider.P4? && e.Some? && e.value.head != "" && e.value.have != "" && e.value.head != e.value.have
  }

  function AnswerOf(n: Names, m: Manifest, b: Binding): Answer {
    Answer(m.provider, m.status, FullCoverage(n, m), HasFile(n, m, b), HasSymbol(n, m, b), WorkspaceBehind(n, m, b),
           Indexed(n, m))
  }

  function AnswersOf(n: Names, rows: seq<Manifest>, b: Binding): (answers: seq<Answer>)
    ensures |answers| == |rows| && forall i :: 0 <= i < |rows| ==> answers[i] == AnswerOf(n, rows[i], b)
  {
    seq(|rows|, i requires 0 <= i < |rows| => AnswerOf(n, rows[i], b))
  }

  function Normal(n: Names, value: string): string { if value == "" then "" else n.rules.path(value, "") }

  function RepoKey(n: Names, value: string): string { if value == "" then "" else n.fold(Normal(n, value)) }

  /** The file the symbol was found in, or else the file found for the path. */
  function Resolved(n: Names, c: Manifest, b: Binding): string {
    var s, f := FoundSymbol(n, c, b), FoundFile(n, c, b);
    if s.Some? && Normal(n, s.value.path) != "" then Normal(n, s.value.path)
    else if f.Some? then Normal(n, f.value.path)
    else ""
  }

  predicate Mismatch(n: Names, c: Manifest, b: Binding) {
    var asked, resolved := RepoKey(n, Normal(n, b.path)), RepoKey(n, Resolved(n, c, b));
    b.path != "" && asked != "" && resolved != "" && asked != resolved
  }

  function QuestionOf(n: Names, c: Manifest, b: Binding): Question {
    Question(b.path != "", b.AsksSymbol(), n.placeholder(b.path), HasFile(n, c, b), HasSymbol(n, c, b),
             Mismatch(n, c, b))
  }

  function CompositeView(n: Names, rows: seq<Manifest>): Manifest {
    View(CompositeOf(n.rules, "Project_J", Normalise(n.rules, rows)))
  }

  /** From the submitted manifests to the verdict. */
  function VerdictOf(n: Names, rows: seq<Manifest>, b: Binding): Verdict {
    var answers := AnswersOf(n, Normalise(n.rules, rows), b);
    Evaluate(QuestionOf(n, CompositeView(n, rows), b), answers, AbsenceAuthoritative(answers))
  }

  /******* Lookups and reordering *******/

  function RequestedKey(n: Names, root: string, b: Binding): string {
    if b.path == "" || n.rules.path(b.path, root) == "" then "" else PathKey(n, root, b.path)
  }

  /** A file is found exactly when an existing entry has the requested key. */
  lemma HasFileExactly(n: Names, m: Manifest, b: Binding)
    ensures HasFile(n, m, b) <==>
            RequestedKey(n, m.root, b) != ""
            && exists f :: f in m.files && f.present && PathKey(n, m.root, f.path) == RequestedKey(n, m.root, b)
  {
    hide Having;
    var k := RequestedKey(n, m.root, b);
    if k != "" {
      var at := FilesAt(n, m, k);
      forall f ensures f in at <==> f in m.files && PathKey(n, m.root, f.path) == k {
        HavingExact(m.files, ByFile(n, m.root), k, f);
      }
      assert FoundFile(n, m, b) == Preferred(at, FilePresent);
    }
  }

  function ExactKey(n: Names, b: Binding): string {
    SymbolKey(n, if n.symbol(b.qualified) != "" then n.symbol(b.qualified) else n.symbol(b.symbol))
  }

  lemma SameHasFile(n: Names, x: Manifest, y: Manifest, b: Binding)
    requires x.root == y.root && forall f :: f in x.files <==> f in y.files
    ensures HasFile(n, x, b) == HasFile(n, y, b)
  {
    HasFileExactly(n, x, b);
    HasFileExactly(n, y, b);
  }

  lemma MultisetMembers<T>(x: seq<T>, y: seq<T>)
    requires multiset(x) == multiset(y)
    ensures |x| == |y| && forall e :: e in x <==> e in y
  {
    assert |multiset(x)| == |x| && |multiset(y)| == |y|;
    forall e ensures e in x <==> e in y {
      assert e in multiset(x) <==> e in x;
      assert e in multiset(y) <==> e in y;
    }
  }

  lemma SameSymbolsAt(n: Names, x: Manifest, y: Manifest, key: Symbol -> string, k: string)
    requires multiset(x.symbols) == multiset(y.symbols)
    ensures var a, b := Having(x.symbols, key, k), Having(y.symbols, key, k);
            multiset(a) == multiset(b) && |a| == |b| && (forall e :: e in a <==> e in b)
            && multiset(Present(a)) == multiset(Present(b)) && |Present(a)| == |Present(b)|
            && (forall e :: e in Present(a) <==> e in Present(b))
  {
    hide Having;
    HavingMultiset(x.symbols, y.symbols, key, k);
    var a, b := Having(x.symbols, key, k), Having(y.symbols, key, k);
    HavingMultiset(a, b, IsPresent, true);
    MultisetMembers(a, b);
    MultisetMembers(Present(a), Present(b));
  }

  /** Whether a symbol is found does not depend on the order of the symbol list. */
  lemma SameHasSymbol(n: Names, x: Manifest, y: Manifest, b: Binding)
    requires x.root == y.root && multiset(x.symbols) == multiset(y.symbols)
    ensures HasSymbol(n, x, b) == HasSymbol(n, y, b)
  {
    hide Having, SymbolKey, PathKey;
    var full, plain := n.symbol(b.qualified), n.symbol(b.symbol);
    var k := ExactKey(n, b);
    var short := n.last(if plain != "" then plain else full);
    SameSymbolsAt(n, x, y, ByFull(n), k);
    SameSymbolsAt(n, x, y, ByShort(n), SymbolKey(n, short));
    ShortPresent(n, x, SymbolKey(n, short));
    ShortPresent(n, y, SymbolKey(n, short));
    NoneHaving<Symbol, bool>(IsPresent, true);
    assert SymbolsAt(n, x, k) == if k == "" then [] else Having(x.symbols, ByFull(n), k);
    assert SymbolsAt(n, y, k) == if k == "" then [] else Having(y.symbols, ByFull(n), k);
    var ex, ey := Present(ShortsAt(n, x, SymbolKey(n, short))), Present(ShortsAt(n, y, SymbolKey(n, short)));
    assert |ex| == |ey| && forall e :: e in ex <==> e in ey;
    assert PathsOf(n, x.root, ex) == PathsOf(n, y.root, ey);
  }

  lemma NoneHaving<T, K>(key: T -> K, k: K)
    ensures Having([], key, k) == []
  {
  }

  lemma ShortPresent(n: Names, m: Manifest, k: string)
    ensures forall e :: e in Present(ShortsAt(n, m, k)) ==> e.present
  {
    forall e | e in Present(ShortsAt(n, m, k)) ensures e.present {
      HavingExact(ShortsAt(n, m, k), IsPresent, true, e);
    }
  }

  /** Manifests that say the same answer the same, up to the revision of a P4 file entry. */
  lemma SameAnswer(n: Names, r: Rules, x: seq<Manifest>, y: seq<Manifest>, i: nat, b: Binding)
    requires Aligned(r, x, y) && i < |x|
    requires x[i].provider.P4? ==> FoundFile(n, x[i], b) == FoundFile(n, y[i], b)
    ensures AnswerOf(n, x[i], b) == AnswerOf(n, y[i], b)
  {
    hide SameSorted, FoundFile, HasFile, HasSymbol, KeyOf;
    SameHeader(r, x, y, i);
    var v, w := x[i], y[i];
    forall f ensures f in v.files <==> f in w.files {
      SameMembers(v.files, w.files, RawPath, f);
    }
    SameHasFile(n, v, w, b);
    SameMultiset(v.symbols, w.symbols, RawName);
    SameHasSymbol(n, v, w, b);
    SameEmpty(v.symbols, w.symbols, RawName);
  }

  /******* Arrival order and the verdict *******/

  /** Both arrivals take the same entries for the binding: in every P4 manifest for its
      revision, and in the composite. */
  predicate EntriesAgree(n: Names, a: seq<Manifest>, b: seq<Manifest>, asked: Binding) {
    var x, y := Normalise(n.rules, a), Normalise(n.rules, b);
    && |x| == |y|
    && (forall i :: 0 <= i < |x| && x[i].provider.P4? ==> FoundFile(n, x[i], asked) == FoundFile(n, y[i], asked))
    && FoundFile(n, CompositeView(n, a), asked) == FoundFile(n, CompositeView(n, b), asked)
    && FoundSymbol(n, CompositeView(n, a), asked) == FoundSymbol(n, CompositeView(n, b), asked)
  }

  /** Arrival order can reach a verdict only through which entry stands for the binding. */
  lemma VerdictForgetsOrder(n: Names, a: seq<Manifest>, b: seq<Manifest>, asked: Binding)
    requires multiset(a) == multiset(b) && CollisionFree(n.rules, a) && EntriesAgree(n, a, b, asked)
    ensures VerdictOf(n, a, asked) == VerdictOf(n, b, asked)
  {
    hide Normalise, AnswerOf, FoundFile, FoundSymbol, CompositeView, Evaluate, AbsenceAuthoritative;
    var x, y := Normalise(n.rules, a), Normalise(n.rules, b);
    ArrivalOrderForgotten(n.rules, a, b);
    forall i | 0 <= i < |x| ensures AnswerOf(n, x[i], asked) == AnswerOf(n, y[i], asked) {
      SameAnswer(n, n.rules, x, y, i, asked);
    }
    assert AnswersOf(n, x, asked) == AnswersOf(n, y, asked);
    assert QuestionOf(n, CompositeView(n, a), asked) == QuestionOf(n, CompositeView(n, b), asked);
  }

  /** At most one file, one symbol of the full name and one of the short name answer to the
      binding. */
  predicate Unambiguous(n: Names, m: Manifest, b: Binding) {
    && |FilesAt(n, m, RequestedKey(n, m.root, b))| <= 1
    && |SymbolsAt(n, m, ExactKey(n, b))| <= 1 && |ShortsAt(n, m, NearKey(n, b))| <= 1
  }

  function NearKey(n: Names, b: Binding): string {
    var full, plain := n.symbol(b.qualified), n.symbol(b.symbol);
    SymbolKey(n, n.last(if plain != "" then plain else full))
  }

  lemma SameSingle<T>(x: seq<T>, y: seq<T>)
    requires multiset(x) == multiset(y) && |x| <= 1
    ensures x == y
  {
    MultisetMembers(x, y);
    if |x| == 1 {
      assert x[0] in y;
    }
  }

  lemma UnambiguousFile(n: Names, x: Manifest, y: Manifest, b: Binding)
    requires x.root == y.root && multiset(x.files) == multiset(y.files)
    requires |FilesAt(n, x, RequestedKey(n, x.root, b))| <= 1
    ensures FoundFile(n, x, b) == FoundFile(n, y, b)
  {
    hide Having;
    var k := RequestedKey(n, x.root, b);
    HavingMultiset(x.files, y.files, ByFile(n, x.root), k);
    if k != "" {
      SameSingle(FilesAt(n, x, k), FilesAt(n, y, k));
    }
  }

  lemma UnambiguousSymbol(n: Names, x: Manifest, y: Manifest, b: Binding)
    requires x.root == y.root && multiset(x.symbols) == multiset(y.symbols) && Unambiguous(n, x, b)
    ensures FoundSymbol(n, x, b) == FoundSymbol(n, y, b)
  {
    hide Having, SymbolKey, RequestedKey;
    var k, near := ExactKey(n, b), NearKey(n, b);
    HavingMultiset(x.symbols, y.symbols, ByFull(n), k);
    HavingMultiset(x.symbols, y.symbols, ByShort(n), near);
    SameSingle(SymbolsAt(n, x, k), SymbolsAt(n, y, k));
    SameSingle(ShortsAt(n, x, near), ShortsAt(n, y, near));
  }

  /** Delivering manifests in another order never changes the verdict of an unambiguous
      binding, when no manifest has two entries that meet only after normalisation. */
  lemma UnambiguousVerdict(n: Names, a: seq<Manifest>, b: seq<Manifest>, asked: Binding)
    requires multiset(a) == multiset(b) && CollisionFree(n.rules, a)
    requires forall m :: m in a ==> NoClash(n.rules, m) && Unambiguous(n, m, asked)
    requires Unambiguous(n, CompositeView(n, a), asked)
    ensures VerdictOf(n, a, asked) == VerdictOf(n, b, asked)
  {
    hide Normalise, Merge, KeyOf, NoClash, FilesAt, SymbolsAt, ShortsAt, RequestedKey, ExactKey, NearKey, SameSorted,
      FoundFile, FoundSymbol, Ascending, Inputs, VerdictOf;
    var r := n.rules;
    var x, y := Normalise(r, a), Normalise(r, b);
    ArrivalOrderForgotten(r, a, b);
    NormaliseKeys(r, a);
    NormaliseKeys(r, b);
    forall i | 0 <= i < |x| ensures FoundFile(n, x[i], asked) == FoundFile(n, y[i], asked) {
      assert x[i] in x;
      SameHeader(r, x, y, i);
      SameMultiset(x[i].files, y[i].files, RawPath);
      UnambiguousFile(n, x[i], y[i], asked);
    }
    RunCompositeSame(r, a, b);
    var c, d := CompositeView(n, a), CompositeView(n, b);
    SameMultiset(c.files, d.files, RawPath);
    SameMultiset(c.symbols, d.symbols, RawName);
    UnambiguousFile(n, c, d, asked);
    UnambiguousSymbol(n, c, d, asked);
    VerdictForgetsOrder(n, a, b, asked);
  }

  lemma RunCompositeSame(r: Rules, a: seq<Manifest>, b: seq<Manifest>)
    requires multiset(a) == multiset(b) && CollisionFree(r, a) && forall m :: m in a ==> NoClash(r, m)
    ensures SameComposite(CompositeOf(r, "Project_J", Normalise(r, a)), CompositeOf(r, "Project_J", Normalise(r, b)))
  {
    hide Normalise, Merge, NoClash, KeyOf, Ascending, Having, SameComposite;
    ArrivalOrderForgotten(r, a, b);
    NormaliseKeys(r, a);
    NormaliseKeys(r, b);
    RunCompositeExactly(r, "Project_J", a, b);
    var norm, rest := Normalise(r, a), Normalise(r, b);
    AlignedInputs(r, norm, rest);
    var x, y := Inputs(norm), Inputs(rest);
    forall i | 0 <= i < |x|
      ensures forall path :: FileAt(r, x[i], path) == FileAt(r, y[i], path)
      ensures forall k :: SymbolAt(r, x[i], k) == SymbolAt(r, y[i], k)
    {
      HavingExact(norm, IsComposite, false, x[i]);
      assert x[i] in norm;
      ClearAgrees(r, x[i], y[i]);
    }
  }

  /******* Exactly when arrival order shows *******/

  ghost predicate Usability(norm: seq<Manifest>) { exists m :: m in norm && (m.status.Ready? || m.status.Partial?) }

  ghost predicate AnyBehind(n: Names, norm: seq<Manifest>, b: Binding) {
    exists m :: m in norm && WorkspaceBehind(n, m, b)
  }

  ghost predicate AnyIndexed(n: Names, norm: seq<Manifest>) { exists m :: m in norm && Indexed(n, m) }

  function ViewOf(n: Names, norm: seq<Manifest>): Manifest { View(CompositeOf(n.rules, "Project_J", norm)) }

  /** The branch the verdict takes over the provider list `x` comes out otherwise over `y`:
      it asks whether the found symbol lies in another file, or whether a P4 file is behind,
      and the entries that stand for the binding answer differently. */
  ghost predicate Turns(n: Names, x: seq<Manifest>, y: seq<Manifest>, b: Binding) {
    var c, d := ViewOf(n, x), ViewOf(n, y);
    var aged := AnyBehind(n, x, b) != AnyBehind(n, y, b);
    && !n.placeholder(b.path) && b.path != "" && Usability(x)
    && if b.AsksSymbol() && HasSymbol(n, c, b)
       then Mismatch(n, c, b) != Mismatch(n, d, b) || (!Mismatch(n, c, b) && aged)
       else HasFile(n, c, b) && aged && (b.AsksSymbol() ==> !AnyIndexed(n, x))
  }

  /** The two answer lists agree but for the revision of P4 files. */
  predicate SameButBehind(a: seq<Answer>, b: seq<Answer>) {
    |a| == |b| && forall i :: 0 <= i < |a| ==> a[i].(behind := false) == b[i].(behind := false)
  }

  lemma SameFlags(a: seq<Answer>, b: seq<Answer>)
    requires SameButBehind(a, b)
    ensures Authoritative(a) == Authoritative(b) && AbsenceAuthoritative(a) == AbsenceAuthoritative(b)
    ensures SymbolsIndexed(a) == SymbolsIndexed(b)
    ensures forall p :: PathKnown(a, p) == PathKnown(b, p) && SymbolKnown(a, p) == SymbolKnown(b, p)
  {
    forall x | x in a ensures exists y :: y in b && y.(behind := false) == x.(behind := false) {
      var i :| 0 <= i < |a| && a[i] == x;
      assert b[i] in b && a[i].(behind := false) == b[i].(behind := false);
    }
    forall y | y in b ensures exists x :: x in a && y.(behind := false) == x.(behind := false) {
      var i :| 0 <= i < |b| && b[i] == y;
      assert a[i] in a && a[i].(behind := false) == b[i].(behind := false);
    }
    FlagsOneWay(a, b);
    FlagsOneWay(b, a);
  }

  lemma FlagsOneWay(a: seq<Answer>, b: seq<Answer>)
    requires forall x :: x in a ==> exists y :: y in b && y.(behind := false) == x.(behind := false)
    ensures Authoritative(a) ==> Authoritative(b)
    ensures AbsenceAuthoritative(b) ==> AbsenceAuthoritative(a)
    ensures SymbolsIndexed(a) ==> SymbolsIndexed(b)
    ensures forall p :: (PathKnown(a, p) ==> PathKnown(b, p)) && (SymbolKnown(a, p) ==> SymbolKnown(b, p))
  {
    forall x | x in a
      ensures exists y :: y in b && y.provider == x.provider && y.status == x.status && y.fullCoverage == x.fullCoverage
                          && y.pathFound == x.pathFound && y.symbolFound == x.symbolFound
                          && y.symbolIndex == x.symbolIndex
    {
      var y :| y in b && y.(behind := false) == x.(behind := false);
      SameFields(x, y);
    }
  }

  lemma SameFields(x: Answer, y: Answer)
    requires y.(behind := false) == x.(behind := false)
    ensures y.provider == x.provider && y.status == x.status && y.fullCoverage == x.fullCoverage
            && y.pathFound == x.pathFound && y.symbolFound == x.symbolFound && y.symbolIndex == x.symbolIndex
  {
    var p, q := x.(behind := false), y.(behind := false);
    assert p.provider == q.provider && p.status == q.status && p.fullCoverage == q.fullCoverage;
    assert p.pathFound == q.pathFound && p.symbolFound == q.symbolFound && p.symbolIndex == q.symbolIndex;
  }

  /** Evaluated on answers that agree but for revisions, two questions that agree but for the
      mismatch are answered differently exactly when the branch taken reads the difference. */
  lemma EvaluateTurns(q: Question, w: Question, a: seq<Answer>, b: seq<Answer>)
    requires SameButBehind(a, b) && q.(pathMismatch := false) == w.(pathMismatch := false)
    requires Behind(a) || Behind(b) ==> q.hasPath
    ensures var aged := Behind(a) != Behind(b);
            Evaluate(q, a, AbsenceAuthoritative(a)) != Evaluate(w, b, AbsenceAuthoritative(b)) <==>
            && !q.placeholder && (q.hasPath || q.hasSymbol) && Authoritative(a)
            && if q.hasPath && q.hasSymbol && q.symbolFound
               then q.pathMismatch != w.pathMismatch || (!q.pathMismatch && aged)
               else q.hasPath && q.pathFound && aged && (q.hasSymbol ==> !SymbolsIndexed(a))
  {
    hide Authoritative, AbsenceAuthoritative, Behind, PathKnown, SymbolKnown, SymbolsIndexed, SameButBehind;
    SameFlags(a, b);
    assert q == w.(pathMismatch := q.pathMismatch);
  }

  lemma AgedAnswer(n: Names, r: Rules, x: seq<Manifest>, y: seq<Manifest>, i: nat, b: Binding)
    requires Aligned(r, x, y) && i < |x|
    ensures AnswerOf(n, x[i], b).(behind := false) == AnswerOf(n, y[i], b).(behind := false)
  {
    hide SameSorted, FoundFile, HasFile, HasSymbol, KeyOf, WorkspaceBehind;
    SameHeader(r, x, y, i);
    var v, w := x[i], y[i];
    forall f ensures f in v.files <==> f in w.files {
      SameMembers(v.files, w.files, RawPath, f);
    }
    SameHasFile(n, v, w, b);
    SameMultiset(v.symbols, w.symbols, RawName);
    SameHasSymbol(n, v, w, b);
    SameEmpty(v.symbols, w.symbols, RawName);
  }

  /** Composites that say the same find the same. */
  lemma SameFinds(n: Names, c: Merged, d: Merged, b: Binding)
    requires SameComposite(c, d)
    ensures HasFile(n, View(c), b) == HasFile(n, View(d), b) && HasSymbol(n, View(c), b) == HasSymbol(n, View(d), b)
  {
    hide SameSorted, HasFile, HasSymbol;
    assert c.(files := [], symbols := []).root == d.(files := [], symbols := []).root;
    SameMultiset(c.files, d.files, RawPath);
    SameMultiset(c.symbols, d.symbols, RawName);
    MultisetMembers(c.files, d.files);
    SameHasFile(n, View(c), View(d), b);
    SameHasSymbol(n, View(c), View(d), b);
  }

  lemma NoPathNotBehind(n: Names, norm: seq<Manifest>, b: Binding)
    requires b.path == ""
    ensures !AnyBehind(n, norm, b)
  {
  }

  /** Two orders of arrival give different verdicts exactly when the branch taken turns on
      which entry stands for the binding. */
  lemma VerdictTurnsExactly(n: Names, a: seq<Manifest>, b: seq<Manifest>, asked: Binding)
    requires multiset(a) == multiset(b) && CollisionFree(n.rules, a) && forall m :: m in a ==> NoClash(n.rules, m)
    ensures VerdictOf(n, a, asked) != VerdictOf(n, b, asked) <==>
            Turns(n, Normalise(n.rules, a), Normalise(n.rules, b), asked)
  {
    hide Normalise, NoClash, CollisionFree, AnswerOf, FoundFile, FoundSymbol, HasFile, HasSymbol, Mismatch, Indexed,
      WorkspaceBehind, Evaluate, CompositeOf, Authoritative, Behind, SymbolsIndexed, AbsenceAuthoritative,
      SameComposite, Aligned;
    var r := n.rules;
    var x, y := Normalise(r, a), Normalise(r, b);
    ArrivalOrderForgotten(r, a, b);
    AlignedLength(r, x, y);
    forall i | 0 <= i < |x|
      ensures AnswerOf(n, x[i], asked).(behind := false) == AnswerOf(n, y[i], asked).(behind := false)
    {
      AgedAnswer(n, r, x, y, i, asked);
    }
    RunCompositeSame(r, a, b);
    SameFinds(n, CompositeOf(r, "Project_J", x), CompositeOf(r, "Project_J", y), asked);
    AnswersSay(n, x, asked);
    AnswersSay(n, y, asked);
    if asked.path == "" {
      NoPathNotBehind(n, x, asked);
      NoPathNotBehind(n, y, asked);
    }
    var answers, others := AnswersOf(n, x, asked), AnswersOf(n, y, asked);
    assert SameButBehind(answers, others);
    EvaluateTurns(QuestionOf(n, CompositeView(n, a), asked), QuestionOf(n, CompositeView(n, b), asked), answers,
                  others);
    NoPathNoMismatch(n, CompositeView(n, a), asked);
    NoPathNoMismatch(n, CompositeView(n, b), asked);
  }

  lemma NoPathNoMismatch(n: Names, c: Manifest, b: Binding)
    ensures b.path == "" ==> !Mismatch(n, c, b)
  {
  }

  /******* Whether any order shows *******/

  /** One submitted manifest for every key, in the order of the keys. */
  predicate Selects(r: Rules, rows: seq<Manifest>, z: seq<Manifest>) {
    var x := Normalise(r, rows);
    |z| == |x| && forall i :: 0 <= i < |z| ==> z[i] in rows && KeyOf(r, z[i]) == KeyOf(r, x[i])
  }

  lemma {:induction false} SeqOf<T>(m: multiset<T>) returns (s: seq<T>)
    ensures multiset(s) == m
    decreases |m|
  {
    if m == multiset{} {
      s := [];
    } else {
      var e :| e in m;
      var rest := SeqOf(m - multiset{e});
      s := [e] + rest;
      assert multiset(s) == multiset{e} + multiset(rest);
    }
  }

  lemma LeadersEqual(r: Rules, rows: seq<Manifest>, a: Manifest, b: Manifest)
    requires Leads(r, rows, a) && Leads(r, rows, b) && KeyOf(r, a) == KeyOf(r, b)
    ensures a == b
  {
    var i :| 0 <= i < |rows| && rows[i] == a && forall j :: 0 <= j < i ==> KeyOf(r, rows[j]) != KeyOf(r, a);
    var k :| 0 <= k < |rows| && rows[k] == b && forall j :: 0 <= j < k ==> KeyOf(r, rows[j]) != KeyOf(r, b);
  }

  /** Any selection leads when it is delivered first. */
  lemma SelectionLeads(r: Rules, rows: seq<Manifest>, z: seq<Manifest>) returns (b: seq<Manifest>)
    requires CollisionFree(r, rows) && Selects(r, rows, z)
    ensures multiset(b) == multiset(rows) && Normalise(r, b) == z
  {
    hide Normalise, KeyOf, CollisionFree, SameContent;
    var x := Normalise(r, rows);
    NormaliseKeys(r, rows);
    forall i, j | 0 <= i < j < |z| ensures KeyOf(r, z[i]) != KeyOf(r, z[j]) {
      assert KeySeq(r, x)[i] != KeySeq(r, x)[j];
    }
    assert NoRepeat(z);
    forall m ensures multiset(z)[m] <= multiset(rows)[m] {
      CountNoRepeat(z, m);
      assert m in rows <==> m in multiset(rows);
    }
    var rest := SeqOf(multiset(rows) - multiset(z));
    b := z + rest;
    assert multiset(b) == multiset(z) + multiset(rest);
    ArrivalOrderForgotten(r, rows, b);
    var y := Normalise(r, b);
    forall i | 0 <= i < |z| ensures y[i] == z[i] {
      FirstLeads(r, z, rest, i);
      assert y[i] in y;
      NormaliseIn(r, b, y[i]);
      LeadersEqual(r, b, y[i], z[i]);
    }
  }

  lemma FirstLeads(r: Rules, z: seq<Manifest>, rest: seq<Manifest>, i: nat)
    requires i < |z| && forall j, k :: 0 <= j < k < |z| ==> KeyOf(r, z[j]) != KeyOf(r, z[k])
    ensures Leads(r, z + rest, z[i])
  {
    hide KeyOf;
    assert (z + rest)[i] == z[i] && forall j :: 0 <= j < i ==> (z + rest)[j] == z[j];
  }

  /** Every order of arrival normalises to a selection. */
  lemma OrderSelects(r: Rules, rows: seq<Manifest>, b: seq<Manifest>)
    requires multiset(b) == multiset(rows) && CollisionFree(r, rows)
    ensures Selects(r, rows, Normalise(r, b))
  {
    hide Normalise, KeyOf, SameContent;
    ArrivalOrderForgotten(r, rows, b);
    NormaliseKeys(r, b);
    MultisetMembers(rows, b);
    var y := Normalise(r, b);
    assert forall i :: 0 <= i < |y| ==> y[i] in y;
  }

  /** The verdict depends on the order of arrival exactly when the branch taken turns for some
      selection of the submitted manifests. */
  lemma OrderShowsExactly(n: Names, rows: seq<Manifest>, asked: Binding)
    requires CollisionFree(n.rules, rows) && forall m :: m in rows ==> NoClash(n.rules, m)
    ensures (exists b :: multiset(b) == multiset(rows) && VerdictOf(n, b, asked) != VerdictOf(n, rows, asked)) <==>
            exists z :: Selects(n.rules, rows, z) && Turns(n, Normalise(n.rules, rows), z, asked)
  {
    hide Normalise, NoClash, CollisionFree, VerdictOf, Turns, Selects;
    var r := n.rules;
    if b :| multiset(b) == multiset(rows) && VerdictOf(n, b, asked) != VerdictOf(n, rows, asked) {
      VerdictTurnsExactly(n, rows, b, asked);
      OrderSelects(r, rows, b);
      assert Selects(r, rows, Normalise(r, b)) && Turns(n, Normalise(r, rows), Normalise(r, b), asked);
    }
    if z :| Selects(r, rows, z) && Turns(n, Normalise(r, rows), z, asked) {
      var b := SelectionLeads(r, rows, z);
      VerdictTurnsExactly(n, rows, b, asked);
      assert multiset(b) == multiset(rows) && VerdictOf(n, b, asked) != VerdictOf(n, rows, asked);
    }
  }

  /** A selection with a file behind, and one without. */
  predicate BehindVaries(n: Names, rows: seq<Manifest>, b: Binding) {
    && (exists m :: m in rows && WorkspaceBehind(n, m, b))
    && (forall k :: k in rows ==>
          exists m :: m in rows && KeyOf(n.rules, m) == KeyOf(n.rules, k) && !WorkspaceBehind(n, m, b))
  }

  /** Selections disagree on whether a file is behind exactly when some submitted manifest has
      it behind and every key has one that has not. */
  lemma BehindVariesExactly(n: Names, rows: seq<Manifest>, b: Binding)
    ensures (exists z ::
               Selects(n.rules, rows, z) && AnyBehind(n, z, b) != AnyBehind(n, Normalise(n.rules, rows), b)) <==>
            BehindVaries(n, rows, b)
  {
    hide Normalise, KeyOf, WorkspaceBehind;
    var r := n.rules;
    var x := Normalise(r, rows);
    NormaliseKeys(r, rows);
    assert Selects(r, rows, x) by { assert forall i :: 0 <= i < |x| ==> x[i] in x; }
    if BehindVaries(n, rows, b) {
      var z;
      if AnyBehind(n, x, b) {
        z := NoneBehind(n, rows, b);
      } else {
        z := OneBehind(n, rows, b);
      }
      assert AnyBehind(n, z, b) != AnyBehind(n, x, b);
    }
    if z :| Selects(r, rows, z) && AnyBehind(n, z, b) != AnyBehind(n, x, b) {
      if AnyBehind(n, z, b) {
        SelectionVaries(n, rows, z, x, b);
      } else {
        SelectionVaries(n, rows, x, z, b);
      }
    }
  }

  /** `z` has a file behind and `y` has not. */
  lemma SelectionVaries(n: Names, rows: seq<Manifest>, z: seq<Manifest>, y: seq<Manifest>, b: Binding)
    requires Selects(n.rules, rows, z) && Selects(n.rules, rows, y) && AnyBehind(n, z, b) && !AnyBehind(n, y, b)
    ensures BehindVaries(n, rows, b)
  {
    hide Normalise, KeyOf, WorkspaceBehind, Selects;
    var m :| m in z && WorkspaceBehind(n, m, b);
    SelectedIn(n.rules, rows, z, m);
    forall k | k in rows
      ensures exists m :: m in rows && KeyOf(n.rules, m) == KeyOf(n.rules, k) && !WorkspaceBehind(n, m, b)
    {
      var i := PlaceOf(n.rules, rows, k);
      SelectedAt(n.rules, rows, y, i);
      assert y[i] in y && y[i] in rows && KeyOf(n.rules, y[i]) == KeyOf(n.rules, k);
    }
  }

  lemma SelectedIn(r: Rules, rows: seq<Manifest>, z: seq<Manifest>, m: Manifest)
    requires Selects(r, rows, z) && m in z
    ensures m in rows
  {
  }

  lemma SelectedAt(r: Rules, rows: seq<Manifest>, z: seq<Manifest>, i: nat)
    requires Selects(r, rows, z) && i < |Normalise(r, rows)|
    ensures i < |z| && z[i] in rows && KeyOf(r, z[i]) == KeyOf(r, Normalise(r, rows)[i])
  {
  }

  lemma NormalRows(r: Rules, rows: seq<Manifest>)
    ensures forall i :: 0 <= i < |Normalise(r, rows)| ==> Normalise(r, rows)[i] in rows
  {
    hide Normalise;
    NormaliseKeys(r, rows);
    var x := Normalise(r, rows);
    assert forall i :: 0 <= i < |x| ==> x[i] in x;
  }

  lemma NoneBehind(n: Names, rows: seq<Manifest>, b: Binding) returns (z: seq<Manifest>)
    requires BehindVaries(n, rows, b)
    ensures Selects(n.rules, rows, z) && !AnyBehind(n, z, b)
  {
    hide Normalise, KeyOf, WorkspaceBehind, BehindVaries;
    var x := Normalise(n.rules, rows);
    NormalRows(n.rules, rows);
    z := seq(|x|, i requires 0 <= i < |x| => Current(n, rows, x[i], b));
    forall m | m in z ensures !WorkspaceBehind(n, m, b) {
      var i :| 0 <= i < |z| && z[i] == m;
    }
  }

  /** A submitted manifest of the key of `k` that has the file not behind. */
  ghost function Current(n: Names, rows: seq<Manifest>, k: Manifest, b: Binding): (m: Manifest)
    requires BehindVaries(n, rows, b) && k in rows
    ensures m in rows && KeyOf(n.rules, m) == KeyOf(n.rules, k) && !WorkspaceBehind(n, m, b)
  {
    var m :| m in rows && KeyOf(n.rules, m) == KeyOf(n.rules, k) && !WorkspaceBehind(n, m, b);
    m
  }

  lemma OneBehind(n: Names, rows: seq<Manifest>, b: Binding) returns (z: seq<Manifest>)
    requires exists m :: m in rows && WorkspaceBehind(n, m, b)
    ensures Selects(n.rules, rows, z) && AnyBehind(n, z, b)
  {
    hide Normalise, KeyOf, WorkspaceBehind;
    var m :| m in rows && WorkspaceBehind(n, m, b);
    var x := Normalise(n.rules, rows);
    NormalRows(n.rules, rows);
    var i := PlaceOf(n.rules, rows, m);
    z := x[i := m];
    assert z[i] == m && m in z;
  }

  lemma PlaceOf(r: Rules, rows: seq<Manifest>, m: Manifest) returns (i: nat)
    requires m in rows
    ensures i < |Normalise(r, rows)| && KeyOf(r, Normalise(r, rows)[i]) == KeyOf(r, m)
  {
    hide Normalise, KeyOf;
    var x := Normalise(r, rows);
    NormaliseKeys(r, rows);
    var j :| 0 <= j < |rows| && rows[j] == m;
    assert KeySeq(r, rows)[j] == KeyOf(r, m);
    assert KeyOf(r, m) in KeySeq(r, x);
    i :| 0 <= i < |x| && KeySeq(r, x)[i] == KeyOf(r, m);
  }

  /** For a binding of a path alone: the verdict depends on the order of arrival exactly when
      the file is found, some provider is usable, some submitted manifest has the file behind
      its head revision and every key has a delivery that has not. */
  lemma PathOrderExactly(n: Names, rows: seq<Manifest>, asked: Binding)
    requires CollisionFree(n.rules, rows) && forall m :: m in rows ==> NoClash(n.rules, m)
    requires asked.path != "" && !asked.AsksSymbol()
    ensures (exists b :: multiset(b) == multiset(rows) && VerdictOf(n, b, asked) != VerdictOf(n, rows, asked)) <==>
            && !n.placeholder(asked.path) && Usability(Normalise(n.rules, rows))
            && HasFile(n, CompositeView(n, rows), asked) && BehindVaries(n, rows, asked)
  {
    hide Normalise, NoClash, CollisionFree, VerdictOf, Selects, Usability, AnyBehind, BehindVaries, HasFile, HasSymbol,
      Mismatch, CompositeOf;
    OrderShowsExactly(n, rows, asked);
    BehindVariesExactly(n, rows, asked);
  }

  /** The same snapshot delivered again: only the capture time may differ. */
  predicate Redelivered(r: Rules, rows: seq<Manifest>) {
    forall a, b :: a in rows && b in rows && KeyOf(r, a) == KeyOf(r, b) ==> a.(capturedAt := 0) == b.(capturedAt := 0)
  }

  predicate Twins(x: seq<Manifest>, y: seq<Manifest>) {
    |x| == |y| && forall i :: 0 <= i < |x| ==> x[i].(capturedAt := 0) == y[i].(capturedAt := 0)
  }

  lemma TwinFields(a: Manifest, b: Manifest)
    requires a.(capturedAt := 0) == b.(capturedAt := 0)
    ensures a.provider == b.provider && a.root == b.root && a.files == b.files && a.symbols == b.symbols
    ensures a.(files := [], symbols := [], capturedAt := 0) == b.(files := [], symbols := [], capturedAt := 0)
  {
    var c, d := a.(capturedAt := 0), b.(capturedAt := 0);
    assert c.provider == a.provider && d.provider == b.provider && c.root == a.root && d.root == b.root
           && c.files == a.files && d.files == b.files && c.symbols == a.symbols && d.symbols == b.symbols
           && c.project == a.project && d.project == b.project && c.revision == a.revision && d.revision == b.revision
           && c.sourceRef == a.sourceRef && d.sourceRef == b.sourceRef && c.status == a.status && d.status == b.status
           && c.metadata == a.metadata && d.metadata == b.metadata;
  }

  lemma RedeliveredSame(r: Rules, rows: seq<Manifest>)
    requires Redelivered(r, rows)
    ensures CollisionFree(r, rows)
  {
    hide KeyOf;
    forall a, b | a in rows && b in rows && KeyOf(r, a) == KeyOf(r, b) ensures SameContent(a, b) {
      TwinFields(a, b);
    }
  }

  lemma {:induction false} TwinsHaving(x: seq<Manifest>, y: seq<Manifest>)
    requires Twins(x, y)
    ensures Twins(Having(x, IsComposite, false), Having(y, IsComposite, false))
    decreases |x|
  {
    if x != [] {
      var n := |x| - 1;
      TwinFields(x[n], y[n]);
      TwinsHaving(x[..n], y[..n]);
    }
  }

  lemma TwinsCompose(r: Rules, project: string, x: seq<Manifest>, y: seq<Manifest>)
    requires Twins(x, y) && Aligned(r, x, y) && Ascending(r, x) && Ascending(r, y)
    ensures View(Merge(r, project, x)) == View(Merge(r, project, y))
  {
    hide Sort, FilesOf, SymbolsOf, Flat, KeepFirst, Aligned, Ascending;
    SortSorted(r, x);
    SortSorted(r, y);
    AlignedRoot(r, x, y);
    forall i | 0 <= i < |x| ensures FilesOf(r, x[i]) == FilesOf(r, y[i]) && SymbolsOf(r, x[i]) == SymbolsOf(r, y[i]) {
      TwinFields(x[i], y[i]);
      TwinEntries(r, x[i], y[i]);
    }
    assert FileColumns(r, x) == FileColumns(r, y) && SymbolColumns(r, x) == SymbolColumns(r, y);
  }

  lemma TwinEntries(r: Rules, a: Manifest, b: Manifest)
    requires a.provider == b.provider && a.root == b.root && a.files == b.files && a.symbols == b.symbols
    ensures FilesOf(r, a) == FilesOf(r, b) && SymbolsOf(r, a) == SymbolsOf(r, b)
  {
    hide Mapped;
  }

  /** Delivering manifests in another order, or again, never changes a verdict. */
  lemma RedeliveryForgotten(n: Names, a: seq<Manifest>, b: seq<Manifest>, asked: Binding)
    requires multiset(a) == multiset(b) && Redelivered(n.rules, a)
    ensures VerdictOf(n, a, asked) == VerdictOf(n, b, asked)
  {
    hide Normalise, Merge, KeyOf, SameContent, Having, VerdictOf, ScanPath, Ascending;
    var r := n.rules;
    var x, y := Normalise(r, a), Normalise(r, b);
    RedeliveredSame(r, a);
    ArrivalOrderForgotten(r, a, b);
    NormaliseKeys(r, a);
    NormaliseKeys(r, b);
    MultisetMembers(a, b);
    forall i | 0 <= i < |x| ensures x[i].(capturedAt := 0) == y[i].(capturedAt := 0) {
      assert x[i] in x && y[i] in y;
    }
    AlignedInputs(r, x, y);
    TwinsHaving(x, y);
    TwinsCompose(r, "Project_J", Inputs(x), Inputs(y));
    forall i | 0 <= i < |x| ensures FoundFile(n, x[i], asked) == FoundFile(n, y[i], asked) {
      TwinFields(x[i], y[i]);
      SameScan(n, x[i], y[i], asked.path);
    }
    VerdictForgetsOrder(n, a, b, asked);
  }

  lemma SameScan(n: Names, x: Manifest, y: Manifest, value: string)
    requires x.root == y.root && x.files == y.files
    ensures ScanPath(n, x, value) == ScanPath(n, y, value)
  {
    hide Having;
  }

  /******* What the composite finds *******/

  /** `m` holds an existing file that the composite would list under key `k`. */
  predicate OffersFile(n: Names, rows: seq<Manifest>, root: string, k: string, m: Manifest, f: File) {
    && m in rows && f in m.files && f.present
    && var path := CanonicalFile(n.rules, OriginOf(m), f).path;
       path != "" && PathKey(n, root, path) == k
  }

  /** The composite lists a tombstone of an earlier manifest, or entry, under its path. */
  predicate FileShadowed(n: Names, rows: seq<Manifest>, m: Manifest, f: File) {
    var lead := Get(AllFiles(n.rules, Sort(n.rules, rows)), CanonicalFile(n.rules, OriginOf(m), f).path);
    lead.Some? && !lead.value.present
  }

  predicate OffersSymbol(n: Names, rows: seq<Manifest>, k: string, m: Manifest, s: Symbol) {
    m in rows && s in m.symbols && s.present && FullKey(n, s) == k
  }

  predicate SymbolShadowed(n: Names, rows: seq<Manifest>, m: Manifest, s: Symbol) {
    var lead := Get(AllSymbols(n.rules, Sort(n.rules, rows)), RawName(CanonicalSymbol(n.rules, OriginOf(m), s)));
    lead.Some? && !lead.value.present
  }

  lemma SortMembers(r: Rules, rows: seq<Manifest>)
    ensures forall m :: m in Sort(r, rows) <==> m in rows
  {
    SortAscending(r, rows);
    MultisetMembers(Sort(r, rows), rows);
  }

  /** Where an entry of the stacked lists comes from. */
  lemma FileOrigin(r: Rules, rows: seq<Manifest>, e: (string, File)) returns (m: Manifest, f: File)
    requires e in AllFiles(r, rows)
    ensures m in rows && f in m.files && e.1 == CanonicalFile(r, OriginOf(m), f) && e.0 == e.1.path && e.0 != ""
  {
    hide Mapped, Flat;
    var i := InColumn(FileColumns(r, rows), e);
    m := rows[i];
    MappedExact(m.files, FileEntry(r, OriginOf(m)), e);
    f :| f in m.files && FileEntry(r, OriginOf(m))(f) == Some(e);
  }

  lemma SymbolOrigin(r: Rules, rows: seq<Manifest>, e: ((string, string), Symbol)) returns (m: Manifest, s: Symbol)
    requires e in AllSymbols(r, rows)
    ensures m in rows && s in m.symbols && e.1 == CanonicalSymbol(r, OriginOf(m), s) && e.0 == RawName(e.1)
  {
    hide Mapped, Flat, RawName;
    var i := InColumn(SymbolColumns(r, rows), e);
    m := rows[i];
    MappedExact(m.symbols, SymbolEntry(r, OriginOf(m)), e);
    s :| s in m.symbols && SymbolEntry(r, OriginOf(m))(s) == Some(e);
  }

  lemma {:induction false} InFlat<T>(xs: seq<seq<T>>, i: nat, e: T)
    requires i < |xs| && e in xs[i]
    ensures e in Flat(xs)
    decreases |xs|
  {
    if i < |xs| - 1 {
      InFlat(xs[..|xs| - 1], i, e);
    }
  }

  lemma FileListed(r: Rules, rows: seq<Manifest>, m: Manifest, f: File)
    requires m in rows && f in m.files && CanonicalFile(r, OriginOf(m), f).path != ""
    ensures var c := CanonicalFile(r, OriginOf(m), f); (c.path, c) in AllFiles(r, rows)
  {
    hide Mapped, Flat;
    var c := CanonicalFile(r, OriginOf(m), f);
    var i :| 0 <= i < |rows| && rows[i] == m;
    MappedExact(m.files, FileEntry(r, OriginOf(m)), (c.path, c));
    assert FileEntry(r, OriginOf(m))(f) == Some((c.path, c));
    InFlat(FileColumns(r, rows), i, (c.path, c));
  }

  lemma SymbolListed(r: Rules, rows: seq<Manifest>, m: Manifest, s: Symbol)
    requires m in rows && s in m.symbols
    ensures var c := CanonicalSymbol(r, OriginOf(m), s); (RawName(c), c) in AllSymbols(r, rows)
  {
    hide Mapped, Flat, RawName;
    var c := CanonicalSymbol(r, OriginOf(m), s);
    var i :| 0 <= i < |rows| && rows[i] == m;
    MappedExact(m.symbols, SymbolEntry(r, OriginOf(m)), (RawName(c), c));
    assert SymbolEntry(r, OriginOf(m))(s) == Some((RawName(c), c));
    InFlat(SymbolColumns(r, rows), i, (RawName(c), c));
  }

  /** A kept value leads its key, and a led key is kept. */
  lemma KeptLeads<K, V>(items: seq<(K, V)>, e: (K, V))
    ensures e in KeepFirst(items) ==> e in items && Get(items, e.0) == Some(e.1)
    ensures e in items ==> Get(items, e.0).Some? && (e.0, Get(items, e.0).value) in KeepFirst(items)
  {
    KeepFirstExact(items, e);
    if e in KeepFirst(items) {
      var i :| 0 <= i < |items| && items[i] == e && forall j :: 0 <= j < i ==> items[j].0 != e.0;
      FirstGet(items, i);
    }
    if e in items {
      var i := FirstIndex(items, e.0);
      FirstGet(items, i);
      KeepFirstExact(items, items[i]);
      assert FirstOfKey(items, items[i]);
    }
  }

  lemma FirstIndex<K, V>(items: seq<(K, V)>, k: K) returns (i: nat)
    requires exists e :: e in items && e.0 == k
    ensures i < |items| && items[i].0 == k && forall j :: 0 <= j < i ==> items[j].0 != k
  {
    i := 0;
    while items[i].0 != k
      invariant i < |items| && (exists e :: e in items[i..] && e.0 == k) && forall j :: 0 <= j < i ==> items[j].0 != k
      decreases |items| - i
    {
      assert items[i..] == [items[i]] + items[i + 1..];
      i := i + 1;
    }
  }

  lemma {:induction false} FirstGet<K, V>(items: seq<(K, V)>, i: nat)
    requires i < |items| && forall j :: 0 <= j < i ==> items[j].0 != items[i].0
    ensures Get(items, items[i].0) == Some(items[i].1)
    decreases |items|
  {
    var n := |items| - 1;
    if i < n {
      FirstGet(items[..n], i);
    } else {
      GetHas(items[..n], items[n].0);
      assert items[..n][..] == items[..n];
      forall j | 0 <= j < n ensures items[..n][j].0 != items[n].0 {
        assert items[..n][j] == items[j];
      }
    }
  }

  lemma ValueKept<K, V>(items: seq<(K, V)>, v: V)
    ensures v in Values(items) <==> exists e :: e in items && e.1 == v
  {
    if v in Values(items) {
      var i :| 0 <= i < |items| && Values(items)[i] == v;
      assert items[i] in items && items[i].1 == v;
    }
    if e :| e in items && e.1 == v {
      var i :| 0 <= i < |items| && items[i] == e;
      assert Values(items)[i] == v;
    }
  }

  /** The composite finds the file exactly when some manifest holds an existing one under
      the requested key that no tombstone shadows. */
  lemma FoundFileExactly(n: Names, project: string, rows: seq<Manifest>, b: Binding)
    ensures var c := View(Merge(n.rules, project, rows));
            var k := RequestedKey(n, c.root, b);
            HasFile(n, c, b) <==>
            k != "" && exists m, f :: OffersFile(n, rows, c.root, k, m, f) && !FileShadowed(n, rows, m, f)
  {
    hide AllFiles, AllSymbols, KeepFirst, Sort, Get, RequestedKey, PathKey, CanonicalFile;
    var c := View(Merge(n.rules, project, rows));
    var k := RequestedKey(n, c.root, b);
    var all := AllFiles(n.rules, Sort(n.rules, rows));
    HasFileExactly(n, c, b);
    SortMembers(n.rules, rows);
    if HasFile(n, c, b) {
      var f :| f in c.files && f.present && PathKey(n, c.root, f.path) == k;
      ValueKept(KeepFirst(all), f);
      var e :| e in KeepFirst(all) && e.1 == f;
      KeptLeads(all, e);
      var m, o := FileOrigin(n.rules, Sort(n.rules, rows), e);
      CanonicalPresent(n.rules, OriginOf(m), o);
      assert OffersFile(n, rows, c.root, k, m, o) && !FileShadowed(n, rows, m, o);
    }
    if k != "" && exists m, f :: OffersFile(n, rows, c.root, k, m, f) && !FileShadowed(n, rows, m, f) {
      var m, f :| OffersFile(n, rows, c.root, k, m, f) && !FileShadowed(n, rows, m, f);
      FileListed(n.rules, Sort(n.rules, rows), m, f);
      var p := CanonicalFile(n.rules, OriginOf(m), f).path;
      KeptLeads(all, (p, CanonicalFile(n.rules, OriginOf(m), f)));
      var lead := Get(all, p).value;
      ValueKept(KeepFirst(all), lead);
      KeptLeads(all, (p, lead));
      var o, g := FileOrigin(n.rules, Sort(n.rules, rows), (p, lead));
      assert lead in c.files && lead.present && PathKey(n, c.root, lead.path) == k;
    }
  }

  lemma CanonicalPresent(r: Rules, o: Origin, f: File)
    ensures CanonicalFile(r, o, f).present == f.present
  {
  }

  lemma CanonicalSame(r: Rules, o: Origin, s: Symbol)
    ensures CanonicalSymbol(r, o, s).present == s.present && FullName(CanonicalSymbol(r, o, s)) == FullName(s)
    ensures RawName(CanonicalSymbol(r, o, s)).0 == FullName(s)
  {
  }

  /** The same for symbols under their full key. */
  lemma ListedSymbolExactly(n: Names, project: string, rows: seq<Manifest>, k: string)
    ensures var c := View(Merge(n.rules, project, rows));
            (exists s :: s in c.symbols && s.present && FullKey(n, s) == k) <==>
            exists m, s :: OffersSymbol(n, rows, k, m, s) && !SymbolShadowed(n, rows, m, s)
  {
    hide AllFiles, AllSymbols, KeepFirst, Sort, Get, SymbolKey, CanonicalSymbol, RawName, FullName;
    var c := View(Merge(n.rules, project, rows));
    var all := AllSymbols(n.rules, Sort(n.rules, rows));
    SortMembers(n.rules, rows);
    if s :| s in c.symbols && s.present && FullKey(n, s) == k {
      ValueKept(KeepFirst(all), s);
      var e :| e in KeepFirst(all) && e.1 == s;
      KeptLeads(all, e);
      var m, o := SymbolOrigin(n.rules, Sort(n.rules, rows), e);
      CanonicalSame(n.rules, OriginOf(m), o);
      assert OffersSymbol(n, rows, k, m, o) && !SymbolShadowed(n, rows, m, o);
    }
    if m, s :| OffersSymbol(n, rows, k, m, s) && !SymbolShadowed(n, rows, m, s) {
      SymbolListed(n.rules, Sort(n.rules, rows), m, s);
      CanonicalSame(n.rules, OriginOf(m), s);
      var p := RawName(CanonicalSymbol(n.rules, OriginOf(m), s));
      KeptLeads(all, (p, CanonicalSymbol(n.rules, OriginOf(m), s)));
      var lead := Get(all, p).value;
      ValueKept(KeepFirst(all), lead);
      KeptLeads(all, (p, lead));
      var o, g := SymbolOrigin(n.rules, Sort(n.rules, rows), (p, lead));
      CanonicalSame(n.rules, OriginOf(o), g);
      assert lead in c.symbols && lead.present && FullKey(n, lead) == k;
    }
  }

  /** A symbol listed and existing under the exact key is found. */
  lemma ExactIsFound(n: Names, c: Manifest, b: Binding, s: Symbol)
    requires b.AsksSymbol() && ExactKey(n, b) != "" && s in c.symbols && s.present && FullKey(n, s) == ExactKey(n, b)
    ensures HasSymbol(n, c, b)
  {
    hide Having, SymbolKey;
    var k := ExactKey(n, b);
    HavingExact(c.symbols, ByFull(n), k, s);
    assert s in SymbolsAt(n, c, k);
    assert ScanSymbol(n, c, b.symbol, b.qualified).entry == Preferred(SymbolsAt(n, c, k), IsPresent);
  }

  /******* What the verdicts mean *******/

  function Merging(n: Names, rows: seq<Manifest>): seq<Manifest> { Inputs(Normalise(n.rules, rows)) }

  /** What the answers of the manifests say, in terms of the manifests. */
  lemma AnswersSay(n: Names, norm: seq<Manifest>, b: Binding)
    ensures var answers := AnswersOf(n, norm, b);
            && (Authoritative(answers) <==> exists m :: m in norm && (m.status.Ready? || m.status.Partial?))
            && (Behind(answers) <==> exists m :: m in norm && WorkspaceBehind(n, m, b))
            && (SymbolsIndexed(answers) <==> exists m :: m in norm && Indexed(n, m))
  {
    hide FullCoverage, Indexed, WorkspaceBehind, HasFile, HasSymbol;
    var answers := AnswersOf(n, norm, b);
    forall a ensures a in answers <==> exists m :: m in norm && a == AnswerOf(n, m, b) {
      AnswerFrom(n, norm, b, a);
    }
    forall m | m in norm ensures AnswerOf(n, m, b) in answers {
      assert AnswerOf(n, m, b) == AnswerOf(n, m, b);
    }
  }

  lemma AnswerFrom(n: Names, norm: seq<Manifest>, b: Binding, a: Answer)
    ensures a in AnswersOf(n, norm, b) <==> exists m :: m in norm && a == AnswerOf(n, m, b)
  {
    hide AnswerOf;
    var answers := AnswersOf(n, norm, b);
    if a in answers {
      var i :| 0 <= i < |answers| && answers[i] == a;
      assert norm[i] in norm;
    }
    if m :| m in norm && a == AnswerOf(n, m, b) {
      var i :| 0 <= i < |norm| && norm[i] == m;
      assert answers[i] in answers;
    }
  }

  /** Absence is authoritative exactly when every usable manifest is ready and covers the
      repository. */
  lemma AbsenceExactly(n: Names, norm: seq<Manifest>, b: Binding)
    ensures AbsenceAuthoritative(AnswersOf(n, norm, b)) <==>
            forall m :: m in norm ==> !m.status.Partial? && (m.status.Ready? ==> FullCoverage(n, m))
  {
    hide FullCoverage, Indexed, WorkspaceBehind, HasFile, HasSymbol;
    var answers := AnswersOf(n, norm, b);
    forall a ensures a in answers <==> exists m :: m in norm && a == AnswerOf(n, m, b) {
      AnswerFrom(n, norm, b, a);
    }
    forall m | m in norm ensures AnswerOf(n, m, b) in answers {
      assert AnswerOf(n, m, b) == AnswerOf(n, m, b);
    }
  }

  /** The verdict if absence were taken at its word. */
  function Strict(n: Names, rows: seq<Manifest>, b: Binding): Verdict {
    Evaluate(QuestionOf(n, CompositeView(n, rows), b), AnswersOf(n, Normalise(n.rules, rows), b), true)
  }

  /** A partial or bounded manifest among the usable ones turns a missing verdict into
      unverified and changes no other. */
  lemma AbsenceOnlyDecidesMissing(n: Names, rows: seq<Manifest>, b: Binding)
    ensures var bounded := exists m :: m in Normalise(n.rules, rows)
                                       && (m.status.Partial? || (m.status.Ready? && !FullCoverage(n, m)));
            VerdictOf(n, rows, b) ==
            if Strict(n, rows, b).status == Bindings.Missing && bounded then Verdict(Bindings.Unverified, 0.2)
            else Strict(n, rows, b)
  {
    hide Normalise, CompositeView, HasFile, HasSymbol, Mismatch, FullCoverage, Indexed, WorkspaceBehind, Authoritative,
      Behind, SymbolsIndexed, AbsenceAuthoritative, PathKnown, SymbolKnown;
    AbsenceExactly(n, Normalise(n.rules, rows), b);
  }

  /** Missing, exactly: some manifest is usable, every usable one is ready and covers the
      repository, and the composite holds nothing that was asked for, so every existing file
      under the requested key has its path taken by a tombstone that leads it. */
  lemma MissingExactly(n: Names, rows: seq<Manifest>, b: Binding)
    ensures var norm, x, c := Normalise(n.rules, rows), Merging(n, rows), CompositeView(n, rows);
            VerdictOf(n, rows, b).status == Bindings.Missing <==>
            && !n.placeholder(b.path) && (b.path != "" || b.AsksSymbol())
            && (exists m :: m in norm && (m.status.Ready? || m.status.Partial?))
            && (forall m :: m in norm ==> !m.status.Partial? && (m.status.Ready? ==> FullCoverage(n, m)))
            && FilesShadowed(n, x, c.root, RequestedKey(n, c.root, b))
            && !HasSymbol(n, c, b)
            && (b.path == "" ==> exists m :: m in norm && Indexed(n, m))
  {
    hide Normalise, Merge, OffersFile, FileShadowed, RequestedKey, HasFile, FoundFile, FoundSymbol, Mismatch,
      FullCoverage, Indexed, WorkspaceBehind, Authoritative, Behind, SymbolsIndexed, AbsenceAuthoritative, PathKnown,
      SymbolKnown;
    AnswersSay(n, Normalise(n.rules, rows), b);
    AbsenceExactly(n, Normalise(n.rules, rows), b);
    FoundFileExactly(n, "Project_J", Merging(n, rows), b);
    NotAsked(n, CompositeView(n, rows), b);
  }

  ghost predicate Bounded(n: Names, norm: seq<Manifest>) {
    exists m :: m in norm && (m.status.Partial? || (m.status.Ready? && !FullCoverage(n, m)))
  }

  ghost predicate FileBy(n: Names, norm: seq<Manifest>, p: Provider, b: Binding) {
    exists m :: m in norm && m.provider == p && HasFile(n, m, b)
  }

  ghost predicate SymbolBy(n: Names, norm: seq<Manifest>, p: Provider, b: Binding) {
    exists m :: m in norm && m.provider == p && HasSymbol(n, m, b)
  }

  /** What a provider's own answer counts for. */
  lemma AnswersFind(n: Names, norm: seq<Manifest>, b: Binding, p: Provider)
    ensures PathKnown(AnswersOf(n, norm, b), p) <==> FileBy(n, norm, p, b)
    ensures SymbolKnown(AnswersOf(n, norm, b), p) <==> SymbolBy(n, norm, p, b)
  {
    hide FullCoverage, Indexed, WorkspaceBehind, HasFile, HasSymbol;
    var answers := AnswersOf(n, norm, b);
    forall a ensures a in answers <==> exists m :: m in norm && a == AnswerOf(n, m, b) {
      AnswerFrom(n, norm, b, a);
    }
    forall m | m in norm ensures AnswerOf(n, m, b) in answers {
      assert AnswerOf(n, m, b) == AnswerOf(n, m, b);
    }
  }

  /** Every status from the submitted manifests. A binding with a symbol is decided by the
      symbol and by the file it was found in; a file without its symbol is stale if the
      symbols were indexed or the workspace is behind, and undecided otherwise. */
  lemma StatusExactly(n: Names, rows: seq<Manifest>, b: Binding)
    ensures var norm, c, status := Normalise(n.rules, rows), CompositeView(n, rows), VerdictOf(n, rows, b).status;
            var concrete := !n.placeholder(b.path) && (b.path != "" || b.AsksSymbol());
            var live := concrete && Usability(norm);
            var moved := b.path != "" && Mismatch(n, c, b);
            var here := if b.AsksSymbol() then HasSymbol(n, c, b) && !moved else HasFile(n, c, b);
            var bare := b.AsksSymbol() && !HasSymbol(n, c, b) && HasFile(n, c, b);
            var absent := !HasSymbol(n, c, b) && !HasFile(n, c, b);
            && (status == Bindings.Rejected <==> !concrete)
            && (status == Bindings.Renamed <==> live && HasSymbol(n, c, b) && moved)
            && (status == Bindings.Verified <==> live && here && !AnyBehind(n, norm, b))
            && (status == Bindings.Stale <==>
                live && ((here && AnyBehind(n, norm, b))
                         || (bare && (AnyIndexed(n, norm) || AnyBehind(n, norm, b)))))
            && (status == Bindings.Missing <==>
                live && absent && !Bounded(n, norm) && (b.path == "" ==> AnyIndexed(n, norm)))
            && (status == Bindings.Unverified <==>
                concrete && (!Usability(norm)
                             || (bare && !AnyIndexed(n, norm) && !AnyBehind(n, norm, b))
                             || (absent && (Bounded(n, norm) || (b.path == "" && !AnyIndexed(n, norm))))))
  {
    hide Normalise, CompositeView, HasFile, HasSymbol, Mismatch, FullCoverage, Indexed, WorkspaceBehind, Authoritative,
      Behind, SymbolsIndexed, AbsenceAuthoritative, PathKnown, SymbolKnown;
    AnswersSay(n, Normalise(n.rules, rows), b);
    AbsenceExactly(n, Normalise(n.rules, rows), b);
    NotAsked(n, CompositeView(n, rows), b);
    NoPathNoMismatch(n, CompositeView(n, rows), b);
  }

  /** The score is fixed by the status and by whose manifests confirm the binding: a file
      by Perforce, with a symbol also by the code index, and a symbol alone by the code index. */
  lemma ScoreExactly(n: Names, rows: seq<Manifest>, b: Binding)
    ensures var norm, c, v := Normalise(n.rules, rows), CompositeView(n, rows), VerdictOf(n, rows, b);
            && (v.status == Bindings.Rejected || v.status == Bindings.Missing ==> v.score == 0.0)
            && (v.status == Bindings.Unverified ==> v.score == 0.2)
            && (v.status == Bindings.Renamed ==> v.score == 0.72)
            && (v.status == Bindings.Stale ==>
                v.score == if b.AsksSymbol() && !HasSymbol(n, c, b) then 0.58 else 0.62)
            && (v.status == Bindings.Verified && b.path != "" && b.AsksSymbol() ==>
                v.score == if FileBy(n, norm, P4, b) || FileBy(n, norm, CodebaseMemory, b) then 1.0 else 0.86)
            && (v.status == Bindings.Verified && !b.AsksSymbol() ==>
                v.score == if FileBy(n, norm, P4, b) then 1.0 else 0.86)
            && (v.status == Bindings.Verified && b.path == "" ==>
                v.score == if SymbolBy(n, norm, CodebaseMemory, b) then 1.0 else 0.82)
  {
    hide Normalise, CompositeView, HasFile, HasSymbol, Mismatch, FullCoverage, Indexed, WorkspaceBehind, Authoritative,
      Behind, SymbolsIndexed, AbsenceAuthoritative, PathKnown, SymbolKnown, FileBy, SymbolBy;
    var norm := Normalise(n.rules, rows);
    AnswersSay(n, norm, b);
    AnswersFind(n, norm, b, P4);
    AnswersFind(n, norm, b, CodebaseMemory);
    NotAsked(n, CompositeView(n, rows), b);
  }

  /** A manifest covers the repository unless its metadata names something narrower. */
  lemma CoverageExactly(n: Names, m: Manifest)
    ensures FullCoverage(n, m) <==>
            var told := "coverage" in m.metadata && m.metadata["coverage"] != "";
            var word := n.fold(if told then m.metadata["coverage"] else "complete");
            word == "complete" || word == "full" || word == "repository"
    ensures Indexed(n, m) <==>
            var told := "symbol_coverage" in m.metadata && m.metadata["symbol_coverage"] != "";
            var word := n.fold(if told then m.metadata["symbol_coverage"] else "none");
            |m.symbols| > 0 || word == "complete" || word == "full" || word == "repository"
            || word == "selected_file" || word == "selected_files"
  {
  }

  /** Only a Perforce entry can be behind, and only with two different revisions on it. */
  lemma BehindExactly(n: Names, m: Manifest, b: Binding)
    ensures WorkspaceBehind(n, m, b) <==>
            m.provider == P4
            && exists f :: FoundFile(n, m, b) == Some(f) && f.head != f.have && |f.head| > 0 && |f.have| > 0
  {
    hide FoundFile;
  }

  /** A symbol found outside the file asked for: the file it names, or else the file found
      for the path, has another normal form. */
  lemma MismatchExactly(n: Names, c: Manifest, b: Binding)
    ensures Mismatch(n, c, b) <==>
            |b.path| > 0
            && exists path :: (if FoundSymbol(n, c, b).Some? && Normal(n, FoundSymbol(n, c, b).value.path) != ""
                               then path == FoundSymbol(n, c, b).value.path
                               else FoundFile(n, c, b).Some? && path == FoundFile(n, c, b).value.path)
                              && RepoKey(n, Normal(n, path)) != "" && RepoKey(n, Normal(n, b.path)) != ""
                              && RepoKey(n, Normal(n, path)) != RepoKey(n, Normal(n, b.path))
  {
    hide FoundFile, FoundSymbol, RepoKey, Normal;
    Blank(n);
  }

  /** Paths are compared without any root, and a missing one stays missing. */
  lemma Blank(n: Names)
    ensures RepoKey(n, "") == "" && Normal(n, "") == ""
    ensures forall path :: path != "" ==> Normal(n, path) == n.rules.path(path, "")
  {
  }

  lemma NotAsked(n: Names, c: Manifest, b: Binding)
    ensures b.path == "" ==> !HasFile(n, c, b) && RequestedKey(n, c.root, b) == ""
    ensures !b.AsksSymbol() ==> !HasSymbol(n, c, b)
  {
  }

  /** Every existing file under key `k` has a tombstone before it. */
  ghost predicate FilesShadowed(n: Names, rows: seq<Manifest>, root: string, k: string) {
    k == "" || forall m, f :: OffersFile(n, rows, root, k, m, f) ==> FileShadowed(n, rows, m, f)
  }

  /** The symbols of a missing binding: every existing one with the requested full name has
      a tombstone before it. */
  lemma MissingSymbols(n: Names, rows: seq<Manifest>, b: Binding, m: Manifest, s: Symbol)
    requires VerdictOf(n, rows, b).status == Bindings.Missing && b.AsksSymbol() && ExactKey(n, b) != ""
    requires OffersSymbol(n, Merging(n, rows), ExactKey(n, b), m, s)
    ensures SymbolShadowed(n, Merging(n, rows), m, s)
  {
    hide Normalise, Merge, OffersFile, OffersSymbol, SymbolShadowed, RequestedKey, ExactKey, HasFile, HasSymbol,
      FoundFile, FoundSymbol, Mismatch, FullCoverage, Indexed, WorkspaceBehind;
    var c := CompositeView(n, rows);
    ListedSymbolExactly(n, "Project_J", Merging(n, rows), ExactKey(n, b));
    if s :| s in c.symbols && s.present && FullKey(n, s) == ExactKey(n, b) {
      ExactIsFound(n, c, b, s);
    }
  }

  /** Verified: no P4 workspace is behind; an asked-for symbol exists in some manifest, and
      where no symbol was asked for, an existing file under the requested key does. */
  lemma VerifiedMeansFound(n: Names, rows: seq<Manifest>, b: Binding)
    requires VerdictOf(n, rows, b).status == Bindings.Verified
    ensures !n.placeholder(b.path) && forall m :: m in Normalise(n.rules, rows) ==> !WorkspaceBehind(n, m, b)
    ensures var x, c := Merging(n, rows), CompositeView(n, rows);
            b.AsksSymbol() ==>
            HasSymbol(n, c, b) && !Mismatch(n, c, b)
            && exists m, s :: m in x && s in m.symbols && s.present
                              && FoundSymbol(n, c, b) == Some(CanonicalSymbol(n.rules, OriginOf(m), s))
    ensures var x, c := Merging(n, rows), CompositeView(n, rows);
            !b.AsksSymbol() ==>
            exists m, f :: OffersFile(n, x, c.root, RequestedKey(n, c.root, b), m, f) && !FileShadowed(n, x, m, f)
  {
    hide Normalise, Merge, OffersFile, FileShadowed, RequestedKey, HasFile, FoundFile, Resolved, RepoKey, Normal,
      FullCoverage, Indexed, WorkspaceBehind, ScanSymbol, CanonicalSymbol;
    var norm := Normalise(n.rules, rows);
    var x, c := Merging(n, rows), CompositeView(n, rows);
    var answers := AnswersOf(n, norm, b);
    forall m | m in norm ensures !WorkspaceBehind(n, m, b) {
      var j :| 0 <= j < |norm| && norm[j] == m;
      assert answers[j] in answers;
    }
    FoundFileExactly(n, "Project_J", x, b);
    if b.AsksSymbol() {
      FoundIsListed(n, c, b);
      var m, s := ListedOrigin(n, "Project_J", x, FoundSymbol(n, c, b).value);
      assert m in x && s in m.symbols && s.present
        && FoundSymbol(n, c, b) == Some(CanonicalSymbol(n.rules, OriginOf(m), s));
    }
  }

  lemma FoundIsListed(n: Names, c: Manifest, b: Binding)
    requires FoundSymbol(n, c, b).Some?
    ensures FoundSymbol(n, c, b).value in c.symbols
  {
    hide Having, SymbolKey;
    var e := FoundSymbol(n, c, b).value;
    var r := ScanSymbol(n, c, b.symbol, b.qualified);
    if r.kind == Qualified {
      var k := ExactKey(n, b);
      assert e in SymbolsAt(n, c, k);
      HavingExact(c.symbols, ByFull(n), k, e);
    } else {
      ShortMatchIsUnambiguous(n, c, b.symbol, b.qualified);
    }
  }

  lemma ListedOrigin(n: Names, project: string, rows: seq<Manifest>, e: Symbol) returns (m: Manifest, s: Symbol)
    requires e in View(Merge(n.rules, project, rows)).symbols
    ensures m in rows && s in m.symbols && e == CanonicalSymbol(n.rules, OriginOf(m), s) && e.present == s.present
  {
    hide AllFiles, AllSymbols, KeepFirst, Sort, CanonicalSymbol, RawName;
    var all := AllSymbols(n.rules, Sort(n.rules, rows));
    ValueKept(KeepFirst(all), e);
    var p :| p in KeepFirst(all) && p.1 == e;
    KeptLeads(all, p);
    m, s := SymbolOrigin(n.rules, Sort(n.rules, rows), p);
    SortMembers(n.rules, rows);
    CanonicalSame(n.rules, OriginOf(m), s);
  }

  /** The found symbol names no file, or the requested one. */
  predicate InRequestedFile(n: Names, c: Manifest, b: Binding) {
    var asked := RepoKey(n, Normal(n, b.path));
    var s, f := FoundSymbol(n, c, b), FoundFile(n, c, b);
    && s.Some?
    && var own := Normal(n, s.value.path);
       var there := if own != "" then own else if f.Some? then Normal(n, f.value.path) else "";
       asked == "" || RepoKey(n, there) == "" || RepoKey(n, there) == asked
  }

  /** A path is not looked for once its symbol is found: a binding of both is verified
      without its file exactly when the symbol exists and names no file, or the requested
      one, while no existing file is found, some provider is usable and none is behind. */
  lemma VerifiedWithoutFileExactly(n: Names, rows: seq<Manifest>, b: Binding)
    requires b.path != "" && b.AsksSymbol()
    ensures var c := CompositeView(n, rows);
            var norm := Normalise(n.rules, rows);
            VerdictOf(n, rows, b).status == Bindings.Verified && !HasFile(n, c, b) <==>
            && !n.placeholder(b.path) && !HasFile(n, c, b) && HasSymbol(n, c, b) && InRequestedFile(n, c, b)
            && (exists m :: m in norm && (m.status.Ready? || m.status.Partial?))
            && (forall m :: m in norm ==> !WorkspaceBehind(n, m, b))
  {
    hide Normalise, CompositeView, FoundFile, FoundSymbol, RepoKey, Normal, FullCoverage, Indexed, WorkspaceBehind,
      Authoritative, Behind, SymbolsIndexed, AbsenceAuthoritative, PathKnown, SymbolKnown;
    var norm := Normalise(n.rules, rows);
    AnswersSay(n, norm, b);
  }

  /******* What a verdict does not promise *******/

  /** Names that stay as they are. */
  const PLAIN := Names(Rules((m: Manifest) => 0, (p: string, root: string) => p), (k: string) => k, (k: string) => k,
                       (k: string) => k, (k: string) => false)

  function Indexer(provider: Provider, files: seq<File>, symbols: seq<Symbol>): Manifest {
    Manifest(provider, "p", "", "", "", Ready, files, symbols, map[], 0)
  }

  function Located(path: string): Symbol { Symbol("A", "A", path, true, "", None) }

  lemma One(m: Manifest)
    requires !IsComposite(m)
    ensures Normalise(PLAIN.rules, [m]) == [m] && Merging(PLAIN, [m]) == [m]
  {
    hide KeyOf;
    var r := PLAIN.rules;
    SortOne(r, m);
    var ks := WithKeys(r, [m]);
    assert ks[..0] == [];
    assert KeepFirst(ks) == [] + [ks[0]];
    assert Distinct(r, [m]) == [m];
    assert [m][..0] == [];
    assert Having([m], IsComposite, false) == [m];
  }

  lemma OneMerged(m: Manifest)
    ensures Sort(PLAIN.rules, [m]) == [m]
    ensures AllFiles(PLAIN.rules, [m]) == FilesOf(PLAIN.rules, m)
    ensures AllSymbols(PLAIN.rules, [m]) == SymbolsOf(PLAIN.rules, m)
  {
    hide FilesOf, SymbolsOf;
    var r := PLAIN.rules;
    SortOne(r, m);
    var files, symbols := FileColumns(r, [m]), SymbolColumns(r, [m]);
    assert files[..0] == [] && symbols[..0] == [];
    assert Flat(files) == [] + files[0];
    assert Flat(symbols) == [] + symbols[0];
  }

  /** The symbol exists, but no manifest lists any file. */
  lemma VerifiedWithoutFile()
    ensures var m := Indexer(CodebaseMemory, [], [Located("")]);
            m.files == [] && VerdictOf(PLAIN, [m], Binding("f", "A", "")).status == Bindings.Verified
  {
    hide Evaluate, CompositeView, Normalise, HasFile, HasSymbol, InRequestedFile, WorkspaceBehind, QuestionOf,
      AnswersOf;
    var n, m, b := PLAIN, Indexer(CodebaseMemory, [], [Located("")]), Binding("f", "A", "");
    var c := CompositeView(n, [m]);
    FilelessView(m, Located(""));
    FilelessFinds(c, CanonicalSymbol(n.rules, OriginOf(m), Located("")), b);
    NotBehind(m, b);
    VerifiedWithoutFileExactly(n, [m], b);
  }

  lemma FilelessView(m: Manifest, s: Symbol)
    requires !IsComposite(m) && m.files == [] && m.symbols == [s]
    ensures var c := CompositeView(PLAIN, [m]);
            c.files == [] && c.symbols == [CanonicalSymbol(PLAIN.rules, OriginOf(m), s)]
  {
    hide AllFiles, AllSymbols, KeepFirst, Values, Sort, Normalise, FilesOf, SymbolsOf, MergedStatus, FirstRoot,
      ByProvider, Revisions, CanonicalSymbol, RawName;
    One(m);
    OneMerged(m);
    SymbolRow(m, s);
    NoFileRow(m);
  }

  lemma NoFileRow(m: Manifest)
    requires m.files == []
    ensures Values(KeepFirst(FilesOf(PLAIN.rules, m))) == []
  {
  }

  lemma NotBehind(m: Manifest, b: Binding)
    requires !m.provider.P4? && !IsComposite(m) && m.status.Ready?
    ensures var norm := Normalise(PLAIN.rules, [m]);
            && (exists m :: m in norm && (m.status.Ready? || m.status.Partial?))
            && (forall m :: m in norm ==> !WorkspaceBehind(PLAIN, m, b))
  {
    hide FoundFile, Normalise, Merging;
    One(m);
    assert m in Normalise(PLAIN.rules, [m]);
  }

  lemma FilelessFinds(c: Manifest, s: Symbol, b: Binding)
    requires c.files == [] && c.symbols == [s] && s.present && s.path == ""
    requires b.AsksSymbol() && ExactKey(PLAIN, b) == FullKey(PLAIN, s) != ""
    ensures !HasFile(PLAIN, c, b) && HasSymbol(PLAIN, c, b) && InRequestedFile(PLAIN, c, b)
  {
    hide FoundSymbol, SymbolKey, ExactKey;
    assert s in c.symbols;
    NoneHaving<File, string>(ByFile(PLAIN, c.root), PLAIN.fold(PLAIN.rules.path(b.path, c.root)));
    ExactIsFound(PLAIN, c, b, s);
    FoundIsListed(PLAIN, c, b);
    HasFileExactly(PLAIN, c, b);
    assert FoundSymbol(PLAIN, c, b).value == s;
  }

  lemma SymbolRow(m: Manifest, s: Symbol)
    requires m.symbols == [s]
    ensures var c := CanonicalSymbol(PLAIN.rules, OriginOf(m), s);
            SymbolsOf(PLAIN.rules, m) == [(RawName(c), c)] && Values(KeepFirst(SymbolsOf(PLAIN.rules, m))) == [c]
  {
    hide CanonicalSymbol, RawName;
    var rows, c := SymbolsOf(PLAIN.rules, m), CanonicalSymbol(PLAIN.rules, OriginOf(m), s);
    assert Mapped(m.symbols[..0], SymbolEntry(PLAIN.rules, OriginOf(m))) == [];
    assert SymbolEntry(PLAIN.rules, OriginOf(m))(s) == Some((RawName(c), c));
    assert rows == [] + [(RawName(c), c)];
    assert KeepFirst(rows[..0]) == [];
    assert KeepFirst(rows) == [] + [rows[0]];
  }

  function TwoPlaces(first: string, second: string): Manifest {
    Indexer(CodebaseMemory, [], [Located(first), Located(second)])
  }

  function Sourced(s: Symbol): Symbol { s.(source := Some(CodebaseMemory)) }

  /** Two deliveries of one snapshot, its symbols listed in another order: the name occurs
      in two files, and the order of arrival decides between verified and renamed. */
  lemma VerdictOrderShows()
    ensures var a, b, asked := TwoPlaces("f", "g"), TwoPlaces("g", "f"), Binding("f", "A", "");
            && SameContent(a, b) && multiset([a, b]) == multiset([b, a])
            && VerdictOf(PLAIN, [a, b], asked).status == Bindings.Verified
            && VerdictOf(PLAIN, [b, a], asked).status == Bindings.Renamed
  {
    hide SameContent, VerdictOf;
    var a, b := TwoPlaces("f", "g"), TwoPlaces("g", "f");
    SwappedPlaces("f", "g");
    FirstPlace("f", "g", b);
    FirstPlace("g", "f", a);
    assert multiset([a, b]) == multiset{a, b} == multiset([b, a]);
  }

  lemma SwappedPlaces(first: string, second: string)
    requires first != second
    ensures SameContent(TwoPlaces(first, second), TwoPlaces(second, first))
  {
    hide Having;
    var a, b := TwoPlaces(first, second), TwoPlaces(second, first);
    forall k ensures Having(a.symbols, RawName, k) == Having(b.symbols, RawName, k) {
      HavingTwo(Located(first), Located(second), RawName, k);
      HavingTwo(Located(second), Located(first), RawName, k);
    }
    assert a.(files := [], symbols := [], capturedAt := 0) == b.(files := [], symbols := [], capturedAt := 0);
  }

  lemma HavingTwo<T, K>(x: T, y: T, key: T -> K, k: K)
    ensures Having([x, y], key, k) == (if key(x) == k then [x] else []) + (if key(y) == k then [y] else [])
  {
    var items := [x, y];
    assert items[..1] == [x] && items[..1][..0] == [];
    assert Having(items[..1], key, k) == if key(x) == k then [x] else [];
    assert Having(items, key, k) == Having(items[..1], key, k) + if key(y) == k then [y] else [];
  }

  /** The first entry of the name answers. */
  lemma FirstPlace(first: string, second: string, other: Manifest)
    requires first != second && first != "" && KeyOf(PLAIN.rules, TwoPlaces(first, second)) == KeyOf(PLAIN.rules, other)
    ensures VerdictOf(PLAIN, [TwoPlaces(first, second), other], Binding("f", "A", "")).status ==
            if first == "f" then Bindings.Verified else Bindings.Renamed
  {
    hide CompositeView, Normalise, FoundSymbol, HasFile, WorkspaceBehind, Authoritative, Behind, SymbolsIndexed,
      AbsenceAuthoritative, PathKnown, SymbolKnown, KeyOf;
    var n, m, b := PLAIN, TwoPlaces(first, second), Binding("f", "A", "");
    var rows := [m, other];
    FirstOfTwo(n.rules, m, other);
    One(m);
    NotBehind(m, b);
    AnswersSay(n, [m], b);
    PlacesView(first, second);
    assert CompositeView(n, rows) == CompositeView(n, [m]) by { SameNormal(rows, [m]); }
    var c := CompositeView(n, rows);
    FindsFirst(c, Sourced(Located(first)), Sourced(Located(second)), b);
  }

  lemma SameNormal(a: seq<Manifest>, b: seq<Manifest>)
    requires Normalise(PLAIN.rules, a) == Normalise(PLAIN.rules, b)
    ensures CompositeView(PLAIN, a) == CompositeView(PLAIN, b)
  {
  }

  lemma FindsFirst(c: Manifest, x: Symbol, y: Symbol, b: Binding)
    requires c.symbols == [x, y] && x.present && FullKey(PLAIN, x) == FullKey(PLAIN, y) == ExactKey(PLAIN, b) != ""
    requires b.AsksSymbol()
    ensures FoundSymbol(PLAIN, c, b) == Some(x)
  {
    HavingTwo(x, y, ByFull(PLAIN), ExactKey(PLAIN, b));
  }

  lemma PlacesView(first: string, second: string)
    requires first != second
    ensures CompositeView(PLAIN, [TwoPlaces(first, second)]).symbols ==
            [Sourced(Located(first)), Sourced(Located(second))]
  {
    hide AllFiles, AllSymbols, KeepFirst, Sort, Normalise, FilesOf, SymbolsOf, MergedStatus, FirstRoot, ByProvider,
      Revisions;
    var m := TwoPlaces(first, second);
    One(m);
    OneMerged(m);
    TwoSymbolRows(m, Located(first), Located(second));
  }

  lemma TwoSymbolRows(m: Manifest, s: Symbol, t: Symbol)
    requires m.symbols == [s, t]
    requires RawName(CanonicalSymbol(PLAIN.rules, OriginOf(m), s)) !=
             RawName(CanonicalSymbol(PLAIN.rules, OriginOf(m), t))
    ensures var c, d := CanonicalSymbol(PLAIN.rules, OriginOf(m), s), CanonicalSymbol(PLAIN.rules, OriginOf(m), t);
            && SymbolsOf(PLAIN.rules, m) == [(RawName(c), c), (RawName(d), d)]
            && KeepFirst(SymbolsOf(PLAIN.rules, m)) == [(RawName(c), c), (RawName(d), d)]
  {
    hide CanonicalSymbol, RawName;
    var c, d := CanonicalSymbol(PLAIN.rules, OriginOf(m), s), CanonicalSymbol(PLAIN.rules, OriginOf(m), t);
    var f := SymbolEntry(PLAIN.rules, OriginOf(m));
    MappedTwo(s, t, f);
    BothKept((RawName(c), c), (RawName(d), d));
  }

  lemma MappedTwo<T, K, V>(x: T, y: T, f: T -> Option<(K, V)>)
    requires f(x).Some? && f(y).Some?
    ensures Mapped([x, y], f) == [f(x).value, f(y).value]
  {
    var items := [x, y];
    assert items[..1] == [x] && items[..1][..0] == [];
    assert Mapped(items[..1], f) == [] + [f(x).value];
    assert Mapped(items, f) == Mapped(items[..1], f) + [f(y).value];
  }

  lemma BothKept<K, V>(x: (K, V), y: (K, V))
    requires x.0 != y.0
    ensures KeepFirst([x, y]) == [x, y]
  {
    var items := [x, y];
    assert items[..1] == [x] && items[..1][..0] == [];
    assert KeepFirst(items[..1]) == [] + [x];
    assert !HasKey([x], y.0);
    assert KeepFirst(items) == KeepFirst(items[..1]) + [y];
  }

  /** Codebase memory lists the file as gone, and its entry leads: missing, although the P4
      manifest holds the file. */
  lemma MissingOverExisting()
    ensures var gone, here := Indexer(CodebaseMemory, [OneFile("f").(present := false)], []),
                               Indexer(P4, [OneFile("f")], []);
            var b := Binding("f", "", "");
            && VerdictOf(PLAIN, [gone, here], b).status == Bindings.Missing
            && OffersFile(PLAIN, [gone, here], "", RequestedKey(PLAIN, "", b), here, OneFile("f"))
  {
    hide Normalise, VerdictOf, HasSymbol, HasFile, WorkspaceBehind, Indexed, Having, Get, AllFiles, Sort, Merge,
      CompositeView;
    var n, gone, here := PLAIN, Indexer(CodebaseMemory, [OneFile("f").(present := false)], []),
      Indexer(P4, [OneFile("f")], []);
    var b, rows := Binding("f", "", ""), [gone, here];
    TwoProviders(gone, here);
    TwoRows(PLAIN.rules, gone, here, gone.files[0], "f");
    NotAsked(n, CompositeView(n, rows), b);
    EveryFileShadowed(gone, here, "f");
    Complete(gone);
    Complete(here);
    RootOfTwo(gone, here);
    assert gone in Normalise(n.rules, rows);
    MissingExactly(n, rows, b);
  }

  lemma EveryFileShadowed(gone: Manifest, here: Manifest, path: string)
    requires gone.files == [OneFile(path).(present := false)] && here.files == [OneFile(path)]
    requires Sort(PLAIN.rules, [gone, here]) == [gone, here] && path != ""
    ensures FilesShadowed(PLAIN, [gone, here], "", path)
  {
    hide Sort, AllFiles, Get;
    TwoRows(PLAIN.rules, gone, here, gone.files[0], path);
  }

  lemma Complete(m: Manifest)
    requires m.metadata == map[]
    ensures FullCoverage(PLAIN, m)
  {
  }

  lemma RootOfTwo(a: Manifest, b: Manifest)
    requires a.root == "" && b.root == "" && Sort(PLAIN.rules, [a, b]) == [a, b] && Merging(PLAIN, [a, b]) == [a, b]
    ensures CompositeView(PLAIN, [a, b]).root == ""
  {
    hide Sort, AllFiles, AllSymbols, KeepFirst, Values, MergedStatus, Revisions, ByProvider, Normalise, Having;
    assert [a, b][1..] == [b] && [b][1..] == [];
    assert FirstRoot([b]) == "";
  }

  lemma TwoProviders(a: Manifest, b: Manifest)
    requires !IsComposite(a) && !IsComposite(b) && AtMost(KeyOf(PLAIN.rules, a), KeyOf(PLAIN.rules, b))
    requires KeyOf(PLAIN.rules, a) != KeyOf(PLAIN.rules, b)
    ensures Sort(PLAIN.rules, [a, b]) == [a, b]
    ensures Normalise(PLAIN.rules, [a, b]) == [a, b] && Merging(PLAIN, [a, b]) == [a, b]
  {
    hide KeyOf, AtMost;
    var r := PLAIN.rules;
    var ks := WithKeys(r, [a, b]);
    BothKept(ks[0], ks[1]);
    assert ks == [ks[0], ks[1]];
    assert Distinct(r, [a, b]) == [a, b];
    SortOne(r, a);
    assert [a, b][..1] == [a];
    assert Place(r, b, []) == [b];
    assert [a][1..] == [];
    assert Place(r, b, [a]) == [a] + Place(r, b, []);
    assert Sort(r, [a, b]) == Place(r, b, Sort(r, [a]));
    HavingTwo(a, b, IsComposite, false);
  }

  lemma TwoRows(r: Rules, a: Manifest, b: Manifest, f: File, path: string)
    requires a.files == [f] && path == CanonicalFile(r, OriginOf(a), f).path != ""
    ensures Get(AllFiles(r, [a, b]), path) == Some(CanonicalFile(r, OriginOf(a), f))
  {
    hide CanonicalFile, FilesOf, Get, Flat;
    var c := CanonicalFile(r, OriginOf(a), f);
    var columns := FileColumns(r, [a, b]);
    FlatTwo(columns[0], columns[1]);
    assert columns == [columns[0], columns[1]];
    FileRow(r, a, f);
    GetSingle(Some((path, c)), path);
    GetAppend(columns[0], columns[1], path);
  }

  lemma FlatTwo<T>(x: seq<T>, y: seq<T>)
    ensures Flat([x, y]) == x + y
  {
    var columns := [x, y];
    assert columns[..1] == [x] && columns[..1][..0] == [];
    assert Flat(columns[..1]) == [] + x;
  }

  lemma FileRow(r: Rules, m: Manifest, f: File)
    requires m.files == [f] && CanonicalFile(r, OriginOf(m), f).path != ""
    ensures FilesOf(r, m) == [(CanonicalFile(r, OriginOf(m), f).path, CanonicalFile(r, OriginOf(m), f))]
  {
    hide CanonicalFile;
    var c := CanonicalFile(r, OriginOf(m), f);
    assert FileEntry(r, OriginOf(m))(f) == Some((c.path, c));
    MappedOne(f, FileEntry(r, OriginOf(m)));
  }

  lemma MappedOne<T, K, V>(x: T, f: T -> Option<(K, V)>)
    requires f(x).Some?
    ensures Mapped([x], f) == [f(x).value]
  {
    assert [x][..0] == [];
    assert Mapped([x], f) == [] + [f(x).value];
  }
}
