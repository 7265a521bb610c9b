/**
 * The string operations the skip list uses: `toLowerCase`, `replace` with a
 * string pattern (first occurrence only), suffix tests, and the order that
 * JavaScript's default `Array.prototype.sort` puts strings in.
 */
module Strings {

  /** `toLowerCase` on one character; only ASCII letters are mapped. */
  function LowerChar(c: char): (r: char)
    ensures 'A' <= c <= 'Z' ==> 'a' <= r <= 'z' && r as int == c as int + 32
    ensures !('A' <= c <= 'Z') ==> r == c
  {
    if 'A' <= c <= 'Z' then (c as int + 32) as char else c
  }

  function ToLower(s: string): (r: string)
    ensures |r| == |s|
    ensures forall i :: 0 <= i < |s| ==> r[i] == LowerChar(s[i])
  {
    seq(|s|, i requires 0 <= i < |s| => LowerChar(s[i]))
  }

  /** Index of the first occurrence of `c` in `s`, or `|s|` when there is none. */
  function IndexOf(s: string, c: char): (k: nat)
    ensures k <= |s|
    ensures k < |s| ==> s[k] == c
    ensures forall i :: 0 <= i < k ==> s[i] != c
  {
    if s == [] then 0 else if s[0] == c then 0 else 1 + IndexOf(s[1..], c)
  }

  /** `s.replace(from, to)` for one-character patterns: only the first occurrence is replaced. */
  function ReplaceFirst(s: string, from: char, to: char): (r: string)
    ensures |r| == |s|
    ensures from !in s ==> r == s
  {
    var k := IndexOf(s, from);
    if k < |s| then s[..k] + [to] + s[k + 1..] else s
  }

  /** `ReplaceFirst` changes the character at the first occurrence of `from`, and nothing else. */
  lemma ReplaceFirstMeaning(s: string, from: char, to: char)
    ensures forall i :: 0 <= i < |s| ==> ReplaceFirst(s, from, to)[i] == if i == IndexOf(s, from) then to else s[i]
  {
  }

  /** Everything after an occurrence of `from` is left alone by `ReplaceFirst`. */
  lemma ReplaceFirstKeepsAfter(s: string, from: char, to: char, m: nat)
    requires m < |s| && s[m] == from
    ensures ReplaceFirst(s, from, to)[m + 1..] == s[m + 1..]
  {
    var r := ReplaceFirst(s, from, to);
    assert IndexOf(s, from) <= m;
    forall i | m + 1 <= i < |s| ensures r[i] == s[i] {
    }
  }

  /** When the first occurrence of `from` is at `m`, `ReplaceFirst` replaces exactly that character. */
  lemma ReplaceFirstAt(s: string, from: char, to: char, m: nat)
    requires m < |s| && s[m] == from
    requires forall i :: 0 <= i < m ==> s[i] != from
    ensures ReplaceFirst(s, from, to) == s[..m] + [to] + s[m + 1..]
  {
    assert IndexOf(s, from) == m;
    var r, want := ReplaceFirst(s, from, to), s[..m] + [to] + s[m + 1..];
    forall i | 0 <= i < |s| ensures r[i] == want[i] {
    }
  }

  /** Lower-casing works character by character, so it distributes over concatenation. */
  lemma ToLowerAppend(a: string, b: string)
    ensures ToLower(a + b) == ToLower(a) + ToLower(b)
  {
    var l, r := ToLower(a + b), ToLower(a) + ToLower(b);
    forall i | 0 <= i < |a + b| ensures l[i] == r[i] {
      if i < |a| {
        assert (a + b)[i] == a[i];
      } else {
        assert (a + b)[i] == b[i - |a|];
      }
    }
  }

  /** Lower-casing introduces no spaces. */
  lemma ToLowerKeepsNoSpace(s: string)
    requires ' ' !in s
    ensures ' ' !in ToLower(s)
  {
    forall i | 0 <= i < |s| ensures ToLower(s)[i] != ' ' {
      assert s[i] != ' ';
    }
  }

  predicate EndsWith(s: string, suffix: string) {
    |suffix| <= |s| && s[|s| - |suffix|..] == suffix
  }

  /**
   * Strict lexicographic order on character codes, the order JavaScript's
   * default sort compares strings in: a proper prefix comes first, otherwise
   * the first differing character decides.
   */
  predicate StrLt(a: string, b: string) {
    if a == [] then b != []
    else if b == [] then false
    else if a[0] == b[0] then StrLt(a[1..], b[1..])
    else a[0] < b[0]
  }

  lemma {:induction false} StrLtIrreflexive(a: string)
    ensures !StrLt(a, a)
  {
    if a != [] {
      StrLtIrreflexive(a[1..]);
    }
  }

  lemma {:induction false} StrLtTransitive(a: string, b: string, c: string)
    requires StrLt(a, b) && StrLt(b, c)
    ensures StrLt(a, c)
  {
    if a != [] && b != [] && c != [] && a[0] == b[0] && b[0] == c[0] {
      StrLtTransitive(a[1..], b[1..], c[1..]);
    }
  }

  lemma {:induction false} StrLtTotal(a: string, b: string)
    requires a != b
    ensures StrLt(a, b) || StrLt(b, a)
  {
    if a != [] && b != [] && a[0] == b[0] {
      assert a == [a[0]] + a[1..] && b == [b[0]] + b[1..];
      StrLtTotal(a[1..], b[1..]);
    }
  }

  lemma StrLtAsymmetric(a: string, b: string)
    requires StrLt(a, b)
    ensures !StrLt(b, a)
  {
    if StrLt(b, a) {
      StrLtTransitive(a, b, a);
      StrLtIrreflexive(a);
    }
  }
}
