/** Small shared vocabulary: optional values and the canonical coding event. */
module Base {

  datatype Option<+T> = None | Some(value: T) {
    function GetOr(default: T): T {
      if Some? then value else default
    }
  }

  /** Python truthiness of an optional string: neither missing nor empty. */
  predicate Truthy(o: Option<string>) {
    o.Some? && o.value != ""
  }

  function Lookup(m: map<string, string>, key: string): Option<string> {
    if key in m then Some(m[key]) else None
  }

  function Max(a: int, b: int): int {
    if a < b then b else a
  }

  function Min(a: int, b: int): int {
    if a < b then a else b
  }

  /** The value moved into [0, 1]. */
  function Clamp(x: real): real { if x < 0.0 then 0.0 else if x > 1.0 then 1.0 else x }

  lemma SubsetSize<T>(a: set<T>, b: set<T>)
    requires a <= b
    ensures |a| <= |b|
  {
    assert b == a + (b - a);
  }

  function Decimal(n: nat): string {
    var digit := ["0123456789"[n % 10]];
    if n < 10 then digit else Decimal(n / 10) + digit
  }

  function Digit(c: char): nat { if '0' <= c <= '9' then c as nat - '0' as nat else 0 }

  function Value(s: string): nat
    decreases |s|
  {
    if s == "" then 0 else 10 * Value(s[..|s| - 1]) + Digit(s[|s| - 1])
  }

  lemma {:induction false} ValueOfDecimal(n: nat)
    ensures Value(Decimal(n)) == n
  {
    DigitOf(n % 10);
    if n >= 10 {
      ValueOfDecimal(n / 10);
      assert Decimal(n)[..|Decimal(n)| - 1] == Decimal(n / 10);
    }
  }

  /** The text before the first `c`. */
  function Until(s: string, c: char): string { if s == "" || s[0] == c then "" else [s[0]] + Until(s[1..], c) }

  lemma {:induction false} UntilOf(p: string, c: char, x: string)
    requires c !in p
    ensures Until(p + [c] + x, c) == p
  {
    if p != "" {
      UntilOf(p[1..], c, x);
      assert (p + [c] + x)[1..] == p[1..] + [c] + x;
    }
  }

  /** What is joined by a character that the first part does not contain can be split again. */
  lemma SplitAt(p: string, x: string, q: string, y: string, c: char)
    requires c !in p && c !in q && p + [c] + x == q + [c] + y
    ensures p == q && x == y
  {
    UntilOf(p, c, x);
    UntilOf(q, c, y);
    assert (p + [c] + x)[|p| + 1..] == x && (q + [c] + y)[|q| + 1..] == y;
  }

  lemma {:induction false} DecimalDigits(n: nat)
    ensures forall c :: c in Decimal(n) ==> '0' <= c <= '9'
  {
    if n >= 10 {
      DecimalDigits(n / 10);
    }
  }

  lemma DigitOf(d: nat)
    requires d < 10
    ensures Digit("0123456789"[d]) == d
  {
  }
}

/** The canonical event envelope (src/codememory/domain/events.py). */
module Events {
  import opened Base

  datatype EventType =
    | SessionStarted | UserMessage | AssistantMessage | ToolCall | ToolResult | FileRead
    | FileEdit | CommandRun | ValidationRun | VcsChange | UserFeedback | SessionEnded

  /** One canonical event. `context` and `payload` are JSON objects whose values
      are kept as encoded text, `redaction` is the set of redacted fields, and `rest`
      is every further column of the envelope. */
  datatype Event = Event(
    id: string,
    externalId: Option<string>,
    kind: EventType,
    occurredAt: int,
    agent: string,
    adapter: string,
    project: string,
    task: string,
    session: Option<string>,
    seqNo: nat,
    parent: Option<string>,
    context: map<string, string>,
    payload: map<string, string>,
    redaction: set<string>,
    rest: string)

  /** The declared repository, or one derived from the root; SHA-256 is modelled
      as the identity on its preimage. */
  function RepoId(e: Event): Option<string> {
    var declared := Lookup(e.context, "repo_id");
    var root := Lookup(e.context, "root_path");
    if Truthy(declared) then declared
    else if Truthy(root) then Some("repo-" + e.project + "\n" + root.value)
    else None
  }

  function RepoRoot(e: Event): string {
    var root := Lookup(e.context, "root_path");
    var cwd := Lookup(e.context, "cwd");
    if Truthy(root) then root.value else if Truthy(cwd) then cwd.value else "unknown"
  }

  function RepoVcs(e: Event): string {
    if Truthy(Lookup(e.context, "p4_changelist")) then "p4"
    else if Truthy(Lookup(e.context, "commit_id")) then "git"
    else "unknown"
  }

  /** Sequence numbers count up from `first` and every parent is the event before. */
  predicate Linked(es: seq<Event>, first: nat, parent: Option<string>) {
    && (forall i :: 0 <= i < |es| ==> es[i].seqNo == first + i)
    && (es != [] ==> es[0].parent == parent)
    && (forall i :: 0 < i < |es| ==> es[i].parent == Some(es[i - 1].id))
  }
}
