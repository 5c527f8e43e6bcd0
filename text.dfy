/**
 * The Python string operations the client relies on: `strip`, `in`,
 * `find`/`rfind` of a character, `split(sep)[k]`, ASCII `upper` and the
 * decimal rendering of a count inside an f-string.
 */
module Text {

  /** Python's `str.isspace()` for one character. */
  predicate IsSpace(c: char) {
    c == ' ' || ('\t' <= c <= '\r') || ('\U{1c}' <= c <= '\U{1f}')
    || c == '\U{85}' || c == '\U{a0}' || c == '\U{1680}'
    || ('\U{2000}' <= c <= '\U{200a}') || c == '\U{2028}' || c == '\U{2029}'
    || c == '\U{202f}' || c == '\U{205f}' || c == '\U{3000}'
  }

  /** The start of `s.strip()`: the number of leading whitespace characters. */
  function StripStart(s: string): (lo: nat)
    ensures lo <= |s|
    ensures forall i :: 0 <= i < lo ==> IsSpace(s[i])
    ensures lo == |s| || !IsSpace(s[lo])
  {
    if s != [] && IsSpace(s[0]) then 1 + StripStart(s[1..]) else 0
  }

  /** The end of `s.strip()`: trailing whitespace at or after `lo` is cut off. */
  function StripEnd(s: string, lo: nat): (hi: nat)
    requires lo <= |s|
    ensures lo <= hi <= |s|
    ensures forall i :: hi <= i < |s| ==> IsSpace(s[i])
    ensures hi == lo || !IsSpace(s[hi - 1])
    decreases |s|
  {
    if |s| > lo && IsSpace(s[|s| - 1]) then StripEnd(s[..|s| - 1], lo) else |s|
  }

  /** Python's `s.strip()`. */
  function Strip(s: string): (r: string)
    ensures r == s[StripStart(s)..StripEnd(s, StripStart(s))]
    ensures r == [] || (!IsSpace(r[0]) && !IsSpace(r[|r| - 1]))
  {
    var lo := StripStart(s);
    s[lo..StripEnd(s, lo)]
  }

  /** A text strips to nothing exactly when it is all whitespace. */
  lemma StripEmptyIffBlank(s: string)
    ensures Strip(s) == [] <==> forall i :: 0 <= i < |s| ==> IsSpace(s[i])
  {
  }

  /** Stripping twice is stripping once. */
  lemma StripIdempotent(s: string)
    ensures Strip(Strip(s)) == Strip(s)
  {
    var r := Strip(s);
    assert StripStart(r) == 0;
    if r != [] {
      assert StripEnd(r, 0) == |r|;
    }
  }

  /** `p` occurs in `s` at position `i`. */
  predicate OccursAt(s: string, p: string, i: nat) {
    i + |p| <= |s| && s[i..i + |p|] == p
  }

  /** Python's `p in s`. */
  predicate Contains(s: string, p: string) {
    exists i: nat | i <= |s| :: OccursAt(s, p, i)
  }

  /** The first occurrence of `p` in `s` at or after `from`, or -1: Python's `s.find(p, from)`. */
  function FindFrom(s: string, p: string, from: nat): (r: int)
    requires from <= |s|
    ensures r == -1 || (from <= r && OccursAt(s, p, r))
    ensures r == -1 ==> forall j: nat :: from <= j ==> !OccursAt(s, p, j)
    ensures r != -1 ==> forall j: nat :: from <= j < r ==> !OccursAt(s, p, j)
    decreases |s| - from
  {
    if OccursAt(s, p, from) then from
    else if from == |s| then -1
    else FindFrom(s, p, from + 1)
  }

  /** Python's `s.find(p)`. */
  function Find(s: string, p: string): (r: int)
    ensures r == -1 <==> !Contains(s, p)
    ensures r != -1 ==> 0 <= r <= |s| - |p| && OccursAt(s, p, r)
    ensures r != -1 ==> forall j: nat :: j < r ==> !OccursAt(s, p, j)
  {
    FindFrom(s, p, 0)
  }

  /** Python's `s.find(c)` for one character. */
  function FindChar(s: string, c: char): (r: int)
    ensures -1 <= r < |s|
    ensures r >= 0 ==> s[r] == c && forall j :: 0 <= j < r ==> s[j] != c
    ensures r == -1 ==> forall j :: 0 <= j < |s| ==> s[j] != c
  {
    if s == [] then -1
    else if s[0] == c then 0
    else
      var k := FindChar(s[1..], c);
      if k == -1 then -1 else k + 1
  }

  /** Python's `s.rfind(c)` for one character. */
  function RFindChar(s: string, c: char): (r: int)
    ensures -1 <= r < |s|
    ensures r >= 0 ==> s[r] == c && forall j :: r < j < |s| ==> s[j] != c
    ensures r == -1 ==> forall j :: 0 <= j < |s| ==> s[j] != c
  {
    if s == [] then -1
    else if s[|s| - 1] == c then |s| - 1
    else RFindChar(s[..|s| - 1], c)
  }

  /** `s.split(sep)[0]`: the text before the first `sep`, or all of `s`. */
  function Before(s: string, sep: string): (r: string)
    requires sep != []
    ensures |r| <= |s| && r == s[..|r|]
    ensures r == s || OccursAt(s, sep, |r|)
    ensures !Contains(r, sep)
    ensures forall j: nat :: j < |r| ==> !OccursAt(s, sep, j)
    ensures Contains(s, sep) ==> |r| == Find(s, sep)
    ensures !Contains(s, sep) ==> r == s
  {
    var k := Find(s, sep);
    if k == -1 then s
    else
      var r := s[..k];
      assert !Contains(r, sep) by {
        forall j: nat | OccursAt(r, sep, j) ensures false {
          assert r[j..j + |sep|] == s[j..j + |sep|];
          assert OccursAt(s, sep, j);
        }
      }
      r
  }

  /** The text after the first `sep`; with `Before`, `s.split(sep)[1]` is `Before(After(s, sep), sep)`. */
  function After(s: string, sep: string): (r: string)
    requires Contains(s, sep)
    ensures 0 <= Find(s, sep) <= |s| - |sep| && r == s[Find(s, sep) + |sep|..]
  {
    var k := Find(s, sep);
    s[k + |sep|..]
  }

  /** A text that starts with `p` finds it at position 0. */
  lemma FindAtStart(s: string, p: string)
    requires |p| <= |s| && s[..|p|] == p
    ensures Find(s, p) == 0
  {
    assert OccursAt(s, p, 0);
  }

  /** The first piece of a text is everything before `sep`, when `sep` cannot start any earlier. */
  lemma BeforeAt(s: string, sep: string, k: nat)
    requires sep != [] && OccursAt(s, sep, k)
    requires forall j :: 0 <= j < k ==> s[j] != sep[0]
    ensures Before(s, sep) == s[..k]
  {
    var f := Find(s, sep);
    assert f != -1;
    assert s[f] == s[f..f + |sep|][0];
  }

  /** A text with no separator in it is its own first piece: `split(sep)[0]` twice is once. */
  lemma BeforeIdempotent(s: string, sep: string)
    requires sep != []
    ensures Before(Before(s, sep), sep) == Before(s, sep)
  {
    var r := Before(s, sep);
    assert Find(r, sep) == -1;
  }

  /** A slice of a text free of `p` is free of `p`. */
  lemma SliceAvoids(s: string, p: string, lo: nat, hi: nat)
    requires lo <= hi <= |s|
    requires !Contains(s, p)
    ensures !Contains(s[lo..hi], p)
  {
    forall j: nat | OccursAt(s[lo..hi], p, j) ensures false {
      var w := s[lo..hi][j..j + |p|];
      assert w == s[lo + j..lo + j + |p|] by {
        forall k | 0 <= k < |p| ensures w[k] == s[lo + j + k] {
          assert w[k] == s[lo..hi][j + k];
        }
      }
      assert OccursAt(s, p, lo + j);
    }
  }

  /** Python's `c.upper()` for the ASCII letters; every other character is left as it is. */
  function UpperChar(c: char): (u: char)
    ensures 'a' <= c <= 'z' ==> u as int == c as int - 32
    ensures !('a' <= c <= 'z') ==> u == c
  {
    if 'a' <= c <= 'z' then (c as int - 32) as char else c
  }

  /** Python's `s.upper()`, position by position. */
  function Upper(s: string): (r: string)
    ensures |r| == |s|
    ensures forall i :: 0 <= i < |s| ==> r[i] == UpperChar(s[i])
  {
    if s == [] then [] else [UpperChar(s[0])] + Upper(s[1..])
  }

  /** Upper-casing an upper-cased text changes nothing. */
  lemma {:induction false} UpperIdempotent(s: string)
    ensures Upper(Upper(s)) == Upper(s)
  {
    var u := Upper(s);
    assert forall i :: 0 <= i < |u| ==> Upper(u)[i] == u[i];
  }

  /** Python's `a.upper() == b.upper()`. */
  predicate SameIgnoringCase(a: string, b: string) {
    Upper(a) == Upper(b)
  }

  /** The digits of a natural number, as `str(n)` writes them. */
  function NatToString(n: nat): (r: string)
    ensures r != []
    ensures forall i :: 0 <= i < |r| ==> '0' <= r[i] <= '9'
    ensures DigitsValue(r) == n
    ensures |r| > 1 ==> r[0] != '0'
  {
    var d := ['0' + (n % 10) as char];
    if n < 10 then d
    else
      var front := NatToString(n / 10);
      assert (front + d)[..|front + d| - 1] == front;
      front + d
  }

  /** The number a string of decimal digits stands for. */
  function DigitsValue(s: string): int {
    if s == [] then 0
    else 10 * DigitsValue(s[..|s| - 1]) + (s[|s| - 1] as int - '0' as int)
  }

  /** Python's `str(i)` for an int. */
  function IntToString(i: int): (r: string)
    ensures i >= 0 ==> r == NatToString(i)
    ensures i < 0 ==> r == "-" + NatToString(-i)
  {
    if i >= 0 then NatToString(i) else "-" + NatToString(-i)
  }
}
