/** Small vocabulary shared by every component: optional values, identifiers and instants. */
module Common {

  datatype Option<+T> = None | Some(value: T)

  datatype Result<+T, +E> = Ok(value: T) | Err(error: E)

  /** A 128-bit uuid, kept as its number; uuid.Nil is the number zero. */
  datatype Uuid = Uuid(number: nat)
  const NIL_UUID := Uuid(0)

  /** An instant in nanoseconds since the Unix epoch. */
  type Time = int

  /** Go's zero time.Time: January 1 of year 1. */
  const ZERO_TIME: Time := -62_135_596_800_000_000_000

  /** time.Time.Unix: whole seconds, rounded towards the past (the divisor is positive). */
  function UnixSeconds(t: Time): int {
    t / 1_000_000_000
  }

  lemma UnixSecondsExact(t: Time)
    ensures UnixSeconds(t) * 1_000_000_000 <= t < (UnixSeconds(t) + 1) * 1_000_000_000
  {
  }

  /** An empty string goes into a nullable column as NULL. */
  function NullString(s: string): Option<string> {
    if s == "" then None else Some(s)
  }

  function Reverse<T>(s: seq<T>): (r: seq<T>)
    ensures |r| == |s|
    ensures forall i {:trigger r[i]} :: 0 <= i < |s| ==> r[i] == s[|s| - 1 - i]
  {
    seq(|s|, i requires 0 <= i < |s| => s[|s| - 1 - i])
  }

  /** The first position where p holds, or the length if there is none. */
  function FirstWhere<T>(s: seq<T>, p: T -> bool): (k: nat)
    ensures k <= |s|
    ensures k < |s| ==> p(s[k])
    ensures forall j :: 0 <= j < k ==> !p(s[j])
  {
    if s == [] || p(s[0]) then 0 else 1 + FirstWhere(s[1..], p)
  }

  /** Some key, in the unspecified order of ranging over a Go map. */
  method Choose<T(==)>(keys: set<T>) returns (k: T)
    requires keys != {}
    ensures k in keys
  {
    k :| k in keys;
  }

  lemma SameMap<K, V>(a: map<K, V>, b: map<K, V>)
    requires forall k :: k in a <==> k in b
    requires forall k :: k in a ==> a[k] == b[k]
    ensures a == b
  {
  }

  // strings.TrimSpace over single-byte characters.

  predicate IsSpace(c: char) {
    c == ' ' || c == '\t' || c == '\n' || c == '\r' || c == '\U{0B}' || c == '\U{0C}'
  }

  function TrimLeft(s: string): string {
    if s != "" && IsSpace(s[0]) then TrimLeft(s[1..]) else s
  }

  function TrimRight(s: string): string {
    if s != "" && IsSpace(s[|s| - 1]) then TrimRight(s[..|s| - 1]) else s
  }

  function TrimSpace(s: string): string {
    TrimRight(TrimLeft(s))
  }

  predicate AllSpace(s: string) {
    forall i :: 0 <= i < |s| ==> IsSpace(s[i])
  }

  /** What is cut off is space at either end, and the rest neither starts nor ends with space. */
  lemma TrimSpaceExact(s: string) returns (before: string, after: string)
    ensures s == before + TrimSpace(s) + after && AllSpace(before) && AllSpace(after)
    ensures var t := TrimSpace(s); t != "" ==> !IsSpace(t[0]) && !IsSpace(t[|t| - 1])
  {
    before := TrimLeftExact(s);
    after := TrimRightExact(TrimLeft(s));
    assert TrimSpace(s) != "" ==> TrimSpace(s)[0] == TrimLeft(s)[0];
  }

  lemma {:induction false} TrimLeftExact(s: string) returns (before: string)
    ensures s == before + TrimLeft(s) && AllSpace(before)
    ensures TrimLeft(s) != "" ==> !IsSpace(TrimLeft(s)[0])
    decreases |s|
  {
    before := "";
    if s != "" && IsSpace(s[0]) {
      var rest := TrimLeftExact(s[1..]);
      before := [s[0]] + rest;
    }
  }

  lemma {:induction false} TrimRightExact(s: string) returns (after: string)
    ensures s == TrimRight(s) + after && AllSpace(after)
    ensures TrimRight(s) != "" ==> !IsSpace(TrimRight(s)[|TrimRight(s)| - 1])
    decreases |s|
  {
    after := "";
    if s != "" && IsSpace(s[|s| - 1]) {
      var rest := TrimRightExact(s[..|s| - 1]);
      after := rest + [s[|s| - 1]];
    }
  }
}
