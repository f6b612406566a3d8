/** Nullable values, and the string shapes that the CHECK constraints and guards test. */
module Basics {

  /** A nullable column or argument: None is SQL NULL. */
  datatype Option<+T> = None | Some(value: T)

  /** A computation that may abort its statement. */
  datatype Result<+T> = Failure | Success(value: T)

  /** `x NOT BETWEEN lo AND hi` as a guard sees it: NULL does not make the guard fire. */
  predicate NotBetween(x: Option<int>, lo: int, hi: int) {
    x.Some? && !(lo <= x.value <= hi)
  }

  predicate Lower(c: char) { 'a' <= c <= 'z' }

  predicate Digit(c: char) { '0' <= c <= '9' }

  predicate LowerHex(c: char) { Digit(c) || 'a' <= c <= 'f' }

  /** `^[a-f0-9]{n}$` */
  predicate IsHex(s: string, n: nat) {
    |s| == n && forall i | 0 <= i < n :: LowerHex(s[i])
  }

  /** `^[a-z][a-z0-9_.-]{lo,hi}$` */
  predicate IsName(s: string, lo: nat, hi: nat) {
    && 1 + lo <= |s| <= 1 + hi
    && Lower(s[0])
    && forall i | 1 <= i < |s| :: Lower(s[i]) || Digit(s[i]) || s[i] in "_.-"
  }

  /** `^[A-Za-z][A-Za-z0-9_-]{7,159}$` */
  predicate IsOpaqueId(s: string) {
    && 8 <= |s| <= 160
    && (Lower(s[0]) || 'A' <= s[0] <= 'Z')
    && forall i | 1 <= i < |s| :: Lower(s[i]) || 'A' <= s[i] <= 'Z' || Digit(s[i]) || s[i] in "_-"
  }

  /** s = btrim(s) */
  predicate Trimmed(s: string) {
    s != "" ==> s[0] != ' ' && s[|s| - 1] != ' '
  }

  function Min(a: int, b: int): (r: int) { if a < b then a else b }

  function Max(a: int, b: int): (r: int) { if a < b then b else a }

  /** Some member of a nonempty set. */
  lemma Member<T>(s: set<T>) returns (x: T)
    requires s != {}
    ensures x in s
  {
    x :| x in s;
  }

  /** A nonempty sequence is its front and its last member. */
  lemma Unsnoc<T>(s: seq<T>) returns (front: seq<T>, last: T)
    requires s != []
    ensures s == front + [last] && |front| == |s| - 1
  {
    front, last := s[..|s| - 1], s[|s| - 1];
  }

  lemma FrontOfSnoc<T>(front: seq<T>, last: T)
    ensures (front + [last])[..|front + [last]| - 1] == front
  {
  }

  lemma SameTail<T>(prefix: seq<T>, a: seq<T>, b: seq<T>)
    ensures prefix + a == prefix + b <==> a == b
  {
    assert (prefix + a)[|prefix|..] == a && (prefix + b)[|prefix|..] == b;
  }

  lemma Assoc<T>(a: seq<T>, b: seq<T>, c: seq<T>)
    ensures (a + b) + c == a + (b + c)
  {
  }
}
