/** The string operations of the Go standard library the renderer and the signature code rely on.
    A string is a sequence of code points; every delimiter the program searches for is ASCII, so
    for valid UTF-8 a position here stands for exactly one byte offset there. */
module Text {

  datatype Option<+T> = None | Some(value: T)

  /** `sub` stands at position `k` of `s`. */
  predicate At(s: string, sub: string, k: int) {
    0 <= k && k + |sub| <= |s| && s[k..k + |sub|] == sub
  }

  lemma AtTail(s: string, sub: string, k: int)
    requires s != "" && 0 < k
    ensures At(s, sub, k) <==> At(s[1..], sub, k - 1)
  {
    if k + |sub| <= |s| {
      assert s[k..k + |sub|] == s[1..][k - 1..k - 1 + |sub|];
    }
  }

  lemma AtFront(s: string, sub: string, k: int)
    requires s != "" && k + |sub| < |s|
    ensures At(s, sub, k) <==> At(s[..|s| - 1], sub, k)
  {
    if 0 <= k {
      assert s[k..k + |sub|] == s[..|s| - 1][k..k + |sub|];
    }
  }

  /** First position of `sub` in `s`, or -1. */
  function Index(s: string, sub: string): (r: int)
    ensures r == -1 || At(s, sub, r)
    ensures forall k :: At(s, sub, k) ==> 0 <= r <= k
  {
    if At(s, sub, 0) then 0
    else if s == "" then -1
    else
      var r := Index(s[1..], sub);
      assert forall k | 0 < k :: At(s, sub, k) <==> At(s[1..], sub, k - 1) by {
        forall k | 0 < k { AtTail(s, sub, k); }
      }
      if r == -1 then -1 else r + 1
  }

  /** First position of the character `c`, or -1. */
  function IndexChar(s: string, c: char): (r: int)
    ensures r == -1 || (0 <= r < |s| && s[r] == c)
    ensures forall k :: 0 <= k < |s| && (r == -1 || k < r) ==> s[k] != c
  {
    if s == "" then -1
    else if s[0] == c then 0
    else
      var r := IndexChar(s[1..], c);
      if r == -1 then -1 else r + 1
  }

  /** First position of a character of `set`, or -1. */
  function IndexAny(s: string, chars: string): (r: int)
    ensures r == -1 || (0 <= r < |s| && s[r] in chars)
    ensures forall k :: 0 <= k < |s| && (r == -1 || k < r) ==> s[k] !in chars
  {
    if s == "" then -1
    else if s[0] in chars then 0
    else
      var r := IndexAny(s[1..], chars);
      if r == -1 then -1 else r + 1
  }

  /** Last position of `sub` in `s`, or -1. */
  function LastIndex(s: string, sub: string): (r: int)
    ensures r == -1 || At(s, sub, r)
    ensures forall k :: At(s, sub, k) ==> k <= r
    decreases |s|
  {
    if At(s, sub, |s| - |sub|) then |s| - |sub|
    else if s == "" then -1
    else
      var r := LastIndex(s[..|s| - 1], sub);
      assert forall k | k + |sub| < |s| :: At(s, sub, k) <==> At(s[..|s| - 1], sub, k) by {
        forall k | k + |sub| < |s| { AtFront(s, sub, k); }
      }
      r
  }

  predicate ContainsAny(s: string, chars: string) {
    exists k :: 0 <= k < |s| && s[k] in chars
  }

  /** Replaces every non-overlapping occurrence of `old`, left to right. */
  function ReplaceAll(s: string, from: string, to: string): string
    requires from != ""
  {
    if |s| < |from| then s
    else if from <= s then to + ReplaceAll(s[|from|..], from, to)
    else [s[0]] + ReplaceAll(s[1..], from, to)
  }

  lemma Joined(s: string, i: nat, j: nat)
    requires i <= j <= |s|
    ensures s[..j] == s[..i] + s[i..j]
  {
  }

  lemma Associative(a: string, b: string, c: string)
    ensures a + (b + c) == a + b + c
  {
  }

  function TrimSuffix(s: string, suffix: string): string {
    if |suffix| <= |s| && s[|s| - |suffix|..] == suffix then s[..|s| - |suffix|] else s
  }

  predicate IsSpace(c: char) {
    || c in "\t\n\r " || c == '\U{b}' || c == '\U{c}' || c == '\U{85}' || c == '\U{a0}' || c == '\U{1680}'
    || '\U{2000}' <= c <= '\U{200a}' || c == '\U{2028}' || c == '\U{2029}' || c == '\U{202f}'
    || c == '\U{205f}' || c == '\U{3000}'
  }

  function TrimLeft(s: string, cut: char -> bool): (r: string) {
    if s != "" && cut(s[0]) then TrimLeft(s[1..], cut) else s
  }

  function TrimRight(s: string, cut: char -> bool): string
    decreases |s|
  {
    if s != "" && cut(s[|s| - 1]) then TrimRight(s[..|s| - 1], cut) else s
  }

  function TrimSpace(s: string): string {
    TrimRight(TrimLeft(s, IsSpace), IsSpace)
  }

  /** Length of the first run of characters that are not white space. */
  function WordEnd(s: string): (r: nat)
    ensures r <= |s|
    ensures forall k :: 0 <= k < r ==> !IsSpace(s[k])
    ensures r < |s| ==> IsSpace(s[r])
  {
    if s == "" || IsSpace(s[0]) then 0 else 1 + WordEnd(s[1..])
  }

  /** The words of `s`, split around runs of white space. */
  function Fields(s: string): (words: seq<string>)
    ensures forall w :: w in words ==> w != "" && forall k :: 0 <= k < |w| ==> !IsSpace(w[k])
    decreases |s|
  {
    if s == "" then []
    else if IsSpace(s[0]) then Fields(s[1..])
    else var n := WordEnd(s); [s[..n]] + Fields(s[n..])
  }

  lemma AtShift(s: string, sub: string, n: nat, k: int)
    requires n <= |s| && At(s[n..], sub, k)
    ensures At(s, sub, n + k)
  {
    assert s[n..][k..k + |sub|] == s[n + k..n + k + |sub|];
  }

  /** Every word stands somewhere in the string it was split from. */
  lemma {:induction false} FieldsOccur(s: string, word: string)
    requires word in Fields(s)
    ensures LastIndex(s, word) != -1
    decreases |s|
  {
    hide At, IsSpace;
    if IsSpace(s[0]) {
      FieldsOccur(s[1..], word);
      AtShift(s, word, 1, LastIndex(s[1..], word));
    } else {
      var n := WordEnd(s);
      if word == s[..n] {
        AtStart(s, n);
      } else {
        FieldsOccur(s[n..], word);
        AtShift(s, word, n, LastIndex(s[n..], word));
      }
    }
  }

  lemma AtStart(s: string, n: nat)
    requires n <= |s|
    ensures At(s, s[..n], 0)
  {
  }

  /** The last word of `s`. */
  function LastWord(s: string): string
    requires Fields(s) != []
  {
    Fields(s)[|Fields(s)| - 1]
  }

  /** What stands before the last occurrence of the last word. */
  function BeforeLastWord(s: string): string
    requires Fields(s) != []
  {
    FieldsOccur(s, LastWord(s));
    s[..LastIndex(s, LastWord(s))]
  }

  predicate AsciiAlphaNumeric(c: char) {
    'a' <= c <= 'z' || 'A' <= c <= 'Z' || '0' <= c <= '9'
  }

  function AsciiLower(c: char): char {
    if 'A' <= c <= 'Z' then (c as int + 32) as char else c
  }

  function ToLower(s: string): (r: string)
    ensures |r| == |s| && forall k :: 0 <= k < |s| ==> r[k] == AsciiLower(s[k])
  {
    if s == "" then "" else [AsciiLower(s[0])] + ToLower(s[1..])
  }

  predicate Distinct<T(==)>(values: seq<T>) {
    forall i, j :: 0 <= i < j < |values| ==> values[i] != values[j]
  }

  lemma {:induction false} TrimRightEnds(s: string, cut: char -> bool)
    ensures var r := TrimRight(s, cut); r <= s && (r != "" ==> !cut(r[|r| - 1]))
    decreases |s|
  {
    if s != "" && cut(s[|s| - 1]) {
      TrimRightEnds(s[..|s| - 1], cut);
    }
  }

  lemma {:induction false} TrimLeftEnds(s: string, cut: char -> bool)
    ensures var r := TrimLeft(s, cut); r != "" ==> !cut(r[0])
  {
    if s != "" && cut(s[0]) {
      TrimLeftEnds(s[1..], cut);
    }
  }

  lemma TrimTwice(s: string)
    ensures TrimSpace(TrimSpace(s)) == TrimSpace(s)
  {
    hide IsSpace;
    var left := TrimLeft(s, IsSpace);
    TrimLeftEnds(s, IsSpace);
    TrimRightEnds(left, IsSpace);
    var r := TrimRight(left, IsSpace);
    assert r == "" || r[0] == left[0];
  }
}
