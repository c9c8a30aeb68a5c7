/** Character classes and substring search shared by the text modules. */
module Text {
  import opened Options

  /** Unicode White_Space. */
  predicate IsWhitespace(c: char) {
    || '\t' <= c <= '\r' || c == ' ' || c == '\U{85}' || c == '\U{A0}' || c == '\U{1680}'
    || '\U{2000}' <= c <= '\U{200A}' || c == '\U{2028}' || c == '\U{2029}'
    || c == '\U{202F}' || c == '\U{205F}' || c == '\U{3000}'
  }

  /** Unicode general category Cc. */
  predicate IsControl(c: char) {
    c <= '\U{1F}' || '\U{7F}' <= c <= '\U{9F}'
  }

  /** `m` occurs in `s` at `i`. */
  predicate OccursAt(s: string, m: string, i: nat) {
    i + |m| <= |s| && s[i..i + |m|] == m
  }

  /** The first occurrence at or after `from`; see `FindIsFirst`. */
  function Find(s: string, m: string, from: nat): (r: Option<nat>)
    ensures r.Some? ==> from <= r.value && r.value + |m| <= |s|
    decreases |s| - from
  {
    if from + |m| > |s| then None
    else if OccursAt(s, m, from) then Some(from)
    else Find(s, m, from + 1)
  }

  lemma {:induction false} FindIsFirst(s: string, m: string, from: nat)
    ensures var r := Find(s, m, from);
      && (r.Some? ==> OccursAt(s, m, r.value) && forall i: nat :: from <= i < r.value ==> !OccursAt(s, m, i))
      && (r.None? ==> forall i: nat :: from <= i ==> !OccursAt(s, m, i))
    decreases |s| - from
  {
    if from + |m| <= |s| && !OccursAt(s, m, from) {
      FindIsFirst(s, m, from + 1);
    }
  }

  /** The first index at or after `from` whose character is in the class, or the end; see
      `FindCharIsFirst`. */
  function FindChar(s: string, stop: char -> bool, from: nat): (r: nat)
    requires from <= |s|
    ensures from <= r <= |s|
    decreases |s| - from
  {
    if from == |s| || stop(s[from]) then from else FindChar(s, stop, from + 1)
  }

  lemma {:induction false} FindCharIsFirst(s: string, stop: char -> bool, from: nat)
    requires from <= |s|
    ensures var r := FindChar(s, stop, from);
      (r < |s| ==> stop(s[r])) && forall i :: from <= i < r ==> !stop(s[i])
    decreases |s| - from
  {
    if from < |s| && !stop(s[from]) {
      FindCharIsFirst(s, stop, from + 1);
    }
  }

  function LowerChar(c: char): char {
    if 'A' <= c <= 'Z' then (c as int + 32) as char else c
  }

  function Lower(s: string): (r: string)
    ensures |r| == |s|
    ensures forall i :: 0 <= i < |s| ==> r[i] == LowerChar(s[i])
  {
    seq(|s|, i requires 0 <= i < |s| => LowerChar(s[i]))
  }
}
