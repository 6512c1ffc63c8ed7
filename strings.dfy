/** String helpers with the meaning Python gives them on `str`. */
module Strings {
  import opened Wrappers

  /** Python's `str.isspace()`: what `strip()` removes and what `\s` matches in a `str` pattern. */
  predicate IsSpace(c: char) {
    c == ' ' || ('\t' <= c <= '\r') || ('\U{1c}' <= c <= '\U{1f}') || c == '\U{85}' || c == '\U{a0}'
    || c == '\U{1680}' || ('\U{2000}' <= c <= '\U{200a}') || c == '\U{2028}' || c == '\U{2029}'
    || c == '\U{202f}' || c == '\U{205f}' || c == '\U{3000}'
  }

  predicate IsDigit(c: char) { '0' <= c <= '9' }

  predicate AllDigits(s: string) { forall k :: 0 <= k < |s| ==> IsDigit(s[k]) }

  /** The value of a run of ASCII decimal digits, as Python's `int()` reads it. */
  function DigitsValue(s: string): nat
    requires AllDigits(s)
  {
    if |s| == 0 then 0
    else DigitsValue(s[..|s| - 1]) * 10 + (s[|s| - 1] as int - '0' as int)
  }

  /** `m` occurs in `s` starting at position `i`. */
  predicate OccursAt(s: string, i: nat, m: string) {
    i + |m| <= |s| && s[i..i + |m|] == m
  }

  /** Python's `m in s` for strings. */
  predicate Contains(s: string, m: string) {
    exists i: nat :: i <= |s| && OccursAt(s, i, m)
  }

  predicate StartsWith(s: string, p: string) {
    |p| <= |s| && s[..|p|] == p
  }

  /** Drops the leading characters that satisfy `drop`. */
  function TrimLeft(s: string, drop: char -> bool): (r: string)
    ensures |r| <= |s|
  {
    if |s| > 0 && drop(s[0]) then TrimLeft(s[1..], drop) else s
  }

  /** Drops the trailing characters that satisfy `drop`. */
  function TrimRight(s: string, drop: char -> bool): (r: string)
    ensures |r| <= |s|
  {
    if |s| > 0 && drop(s[|s| - 1]) then TrimRight(s[..|s| - 1], drop) else s
  }

  /** `lstrip` keeps a suffix: every dropped character satisfies `drop` and the first kept one does not. */
  lemma {:induction false} TrimLeftShape(s: string, drop: char -> bool)
    ensures var r := TrimLeft(s, drop);
      && r == s[|s| - |r|..] && (r == [] || !drop(r[0]))
      && forall i :: 0 <= i < |s| - |r| ==> drop(s[i])
  {
    if |s| > 0 && drop(s[0]) {
      TrimLeftShape(s[1..], drop);
      var r := TrimLeft(s, drop);
      assert s[|s| - |r|..] == s[1..][|s| - 1 - |r|..];
      forall i | 0 <= i < |s| - |r| ensures drop(s[i]) {
        if i > 0 { assert s[i] == s[1..][i - 1]; }
      }
    }
  }

  /** `rstrip` keeps a prefix: every dropped character satisfies `drop` and the last kept one does not. */
  lemma {:induction false} TrimRightShape(s: string, drop: char -> bool)
    ensures var r := TrimRight(s, drop);
      && r == s[..|r|] && (r == [] || !drop(r[|r| - 1]))
      && forall i :: |r| <= i < |s| ==> drop(s[i])
  {
    if |s| > 0 && drop(s[|s| - 1]) {
      TrimRightShape(s[..|s| - 1], drop);
      var r := TrimRight(s, drop);
      assert s[..|r|] == s[..|s| - 1][..|r|];
      forall i | |r| <= i < |s| ensures drop(s[i]) {
        if i < |s| - 1 { assert s[i] == s[..|s| - 1][i]; }
      }
    }
  }

  /** Python's `s.strip(chars)` where `drop` tells which characters are in `chars`. */
  function Trim(s: string, drop: char -> bool): string {
    TrimRight(TrimLeft(s, drop), drop)
  }

  /** Python's `s.strip()`. */
  function Strip(s: string): string { Trim(s, IsSpace) }

  /** Python's `s.lstrip()`. */
  function LStrip(s: string): string { TrimLeft(s, IsSpace) }

  /** `str.lower()` on ASCII letters; other characters are kept. */
  function LowerAscii(s: string): (r: string)
    ensures |r| == |s|
  {
    seq(|s|, i requires 0 <= i < |s| => if 'A' <= s[i] <= 'Z' then (s[i] as int + 32) as char else s[i])
  }

  /** Python's `s.replace(old, new)` for single characters. */
  function ReplaceChar(s: string, from: char, to: char): (r: string)
    ensures |r| == |s|
    ensures from !in r || from == to
  {
    seq(|s|, i requires 0 <= i < |s| => if s[i] == from then to else s[i])
  }

  /** The first position of `x` in `s` (Python's `s.index(x)`, with None for the ValueError). */
  function IndexOf<T(==)>(s: seq<T>, x: T): (r: Option<nat>)
    ensures r.Some? ==> r.value < |s| && s[r.value] == x && x !in s[..r.value]
    ensures r.None? ==> x !in s
  {
    if |s| == 0 then None
    else if s[0] == x then Some(0)
    else match IndexOf(s[1..], x)
      case None => None
      case Some(i) => Some(i + 1)
  }

  /** `sep.join(parts)`. */
  function Join(parts: seq<string>, sep: string): string {
    if |parts| == 0 then ""
    else if |parts| == 1 then parts[0]
    else parts[0] + sep + Join(parts[1..], sep)
  }

  /** `re.sub(re.escape(p), "", s)`: deletes the non-overlapping occurrences of `p`, scanning left to right. */
  function RemoveAll(s: string, p: string): (r: string)
    requires |p| > 0
    ensures |r| <= |s|
    decreases |s|
  {
    if |s| == 0 then s
    else if StartsWith(s, p) then RemoveAll(s[|p|..], p)
    else [s[0]] + RemoveAll(s[1..], p)
  }

  /** An occurrence in a piece is an occurrence in the whole. */
  lemma OccursInConcat(a: string, b: string, i: nat, m: string)
    ensures OccursAt(a, i, m) ==> OccursAt(a + b, i, m)
    ensures OccursAt(b, i, m) ==> OccursAt(a + b, |a| + i, m)
  {
    if OccursAt(a, i, m) {
      assert (a + b)[i..i + |m|] == a[i..i + |m|];
    }
    if OccursAt(b, i, m) {
      assert (a + b)[|a| + i..|a| + i + |m|] == b[i..i + |m|];
    }
  }

  /** Joining two strings around a space creates no new occurrence, except of a word holding a space. */
  lemma ContainsAroundSpace(a: string, b: string, m: string)
    ensures Contains(a, m) || Contains(b, m) ==> Contains(a + " " + b, m)
    ensures Contains(a + " " + b, m) ==> Contains(a, m) || Contains(b, m) || ' ' in m
  {
    if Contains(a, m) || Contains(b, m) {
      PiecesOccurAroundSpace(a, b, m);
    }
    if Contains(a + " " + b, m) {
      var i: nat :| i <= |a + " " + b| && OccursAt(a + " " + b, i, m);
      OccurrenceAroundSpace(a, b, m, i);
    }
  }

  lemma PiecesOccurAroundSpace(a: string, b: string, m: string)
    requires Contains(a, m) || Contains(b, m)
    ensures Contains(a + " " + b, m)
  {
    if Contains(a, m) {
      var i: nat :| i <= |a| && OccursAt(a, i, m);
      OccursInConcat(a, " " + b, i, m);
      assert a + " " + b == a + (" " + b);
    } else {
      var i: nat :| i <= |b| && OccursAt(b, i, m);
      OccursInConcat(a + " ", b, i, m);
    }
  }

  lemma OccurrenceAroundSpace(a: string, b: string, m: string, i: nat)
    requires OccursAt(a + " " + b, i, m)
    ensures Contains(a, m) || Contains(b, m) || ' ' in m
  {
    var s := a + " " + b;
    if i + |m| <= |a| {
      assert a[i..i + |m|] == s[i..i + |m|];
      assert OccursAt(a, i, m);
    } else if i > |a| {
      var j: nat := i - |a| - 1;
      assert b[j..j + |m|] == s[i..i + |m|];
      assert OccursAt(b, j, m);
    } else {
      assert m[|a| - i] == s[|a|] == ' ';
    }
  }

  /** A space-free word occurs in `" ".join(parts)` exactly when it occurs in one of the parts. */
  lemma {:induction false} ContainsInJoin(parts: seq<string>, m: string)
    requires ' ' !in m && |m| > 0
    ensures Contains(Join(parts, " "), m) <==> exists k :: 0 <= k < |parts| && Contains(parts[k], m)
  {
    if |parts| == 0 {
      assert !OccursAt("", 0, m);
    } else if |parts| > 1 {
      ContainsInJoin(parts[1..], m);
      ContainsAroundSpace(parts[0], Join(parts[1..], " "), m);
      if exists k :: 0 <= k < |parts| && Contains(parts[k], m) {
        var k :| 0 <= k < |parts| && Contains(parts[k], m);
        if k > 0 {
          assert parts[1..][k - 1] == parts[k];
        }
      }
    }
  }
}
