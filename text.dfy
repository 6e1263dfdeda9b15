/**
 * The string operations of Python's `str` that the batch creator relies on:
 * `strip()`, `rstrip('/')`, `capitalize()`, the `in` test and `find` for a
 * substring, and `str()` of an integer.
 */
module Text {
  import opened Wrappers

  /** A character `str.isspace()` accepts (the whitespace `strip()` removes). */
  predicate IsSpace(c: char)
  {
    || c == ' '
    || ('\t' <= c <= '\r')
    || ('\U{1c}' <= c <= '\U{1f}')
    || c == '\U{85}' || c == '\U{a0}' || c == '\U{1680}'
    || ('\U{2000}' <= c <= '\U{200a}')
    || c == '\U{2028}' || c == '\U{2029}' || c == '\U{202f}' || c == '\U{205f}' || c == '\U{3000}'
  }

  predicate AllSpace(s: string)
  {
    forall i :: 0 <= i < |s| ==> IsSpace(s[i])
  }

  /** `s.lstrip()`: `s` without its leading whitespace. */
  function TrimLeft(s: string): (t: string)
    ensures |t| <= |s| && t == s[|s| - |t|..]
    ensures AllSpace(s[..|s| - |t|])
    ensures t == [] || !IsSpace(t[0])
  {
    if |s| > 0 && IsSpace(s[0]) then
      var t := TrimLeft(s[1..]);
      assert s[..|s| - |t|] == [s[0]] + s[1..][..|s| - 1 - |t|];
      t
    else s
  }

  /** `s.rstrip()`: `s` without its trailing whitespace. */
  function TrimRight(s: string): (t: string)
    ensures |t| <= |s| && t == s[..|t|]
    ensures AllSpace(s[|t|..])
    ensures t == [] || !IsSpace(t[|t| - 1])
  {
    if |s| > 0 && IsSpace(s[|s| - 1]) then
      var t := TrimRight(s[..|s| - 1]);
      assert s[|t|..] == s[..|s| - 1][|t|..] + [s[|s| - 1]];
      t
    else s
  }

  /** `s.strip()`: `s` without leading and trailing whitespace. */
  function Strip(s: string): (t: string)
    ensures |t| <= |s|
    ensures t == [] || (!IsSpace(t[0]) && !IsSpace(t[|t| - 1]))
  {
    TrimRight(TrimLeft(s))
  }

  /** Whitespace around a text whose ends are not whitespace is exactly what `strip()` removes. */
  lemma {:induction false} StripPadded(pre: string, x: string, post: string)
    requires AllSpace(pre) && AllSpace(post)
    requires |x| > 0 && !IsSpace(x[0]) && !IsSpace(x[|x| - 1])
    ensures Strip(pre + x + post) == x
  {
    var xp := x + post;
    assert pre + x + post == pre + xp;
    TrimLeftPadded(pre, xp);
    TrimRightPadded(x, post);
  }

  lemma {:induction false} TrimLeftPadded(pre: string, x: string)
    requires AllSpace(pre) && |x| > 0 && !IsSpace(x[0])
    ensures TrimLeft(pre + x) == x
  {
    if pre != [] {
      assert (pre + x)[1..] == pre[1..] + x;
      TrimLeftPadded(pre[1..], x);
    }
  }

  lemma {:induction false} TrimRightPadded(x: string, post: string)
    requires AllSpace(post) && |x| > 0 && !IsSpace(x[|x| - 1])
    ensures TrimRight(x + post) == x
  {
    if post != [] {
      assert (x + post)[..|x + post| - 1] == x + post[..|post| - 1];
      TrimRightPadded(x, post[..|post| - 1]);
    }
  }

  /** `s.rstrip(c)`: `s` without the copies of `c` at its end. */
  function TrimTrailing(s: string, c: char): (t: string)
    ensures |t| <= |s| && t == s[..|t|]
    ensures forall i :: |t| <= i < |s| ==> s[i] == c
    ensures t == [] || t[|t| - 1] != c
  {
    if |s| > 0 && s[|s| - 1] == c then TrimTrailing(s[..|s| - 1], c) else s
  }

  /** Stripping trailing copies of a character a second time removes nothing. */
  lemma TrimTrailingIdempotent(s: string, c: char)
    ensures TrimTrailing(TrimTrailing(s, c), c) == TrimTrailing(s, c)
  {
  }

  /** The ASCII case mapping of `str.upper()` / `str.lower()`. */
  function ToUpper(c: char): char
  {
    if 'a' <= c <= 'z' then (c as int - 32) as char else c
  }

  function ToLower(c: char): char
  {
    if 'A' <= c <= 'Z' then (c as int + 32) as char else c
  }

  /** `s.capitalize()`: first character upper-cased, the rest lower-cased. */
  function Capitalize(s: string): (r: string)
    ensures |r| == |s|
    ensures |s| > 0 ==> r[0] == ToUpper(s[0])
    ensures forall i :: 0 < i < |s| ==> r[i] == ToLower(s[i])
  {
    if s == [] then []
    else [ToUpper(s[0])] + seq(|s| - 1, i requires 0 <= i < |s| - 1 => ToLower(s[i + 1]))
  }

  /** Capitalising a capitalised text changes nothing. */
  lemma CapitalizeIdempotent(s: string)
    ensures Capitalize(Capitalize(s)) == Capitalize(s)
  {
    var c := Capitalize(s);
    var cc := Capitalize(c);
    assert |cc| == |c|;
    forall i | 0 <= i < |c| ensures cc[i] == c[i] {
      if i == 0 {
        assert ToUpper(ToUpper(s[0])) == ToUpper(s[0]);
      } else {
        assert ToLower(ToLower(s[i])) == ToLower(s[i]);
      }
    }
  }

  /** `pat` occurs in `s` at position `i`. */
  predicate OccursAt(s: string, pat: string, i: nat)
  {
    i + |pat| <= |s| && s[i..i + |pat|] == pat
  }

  /** `s.find(pat)`: the first position where `pat` occurs in `s`, `None` for -1. */
  function Find(s: string, pat: string): (r: Option<nat>)
    ensures r.Some? ==> OccursAt(s, pat, r.value)
    ensures r.Some? ==> forall j :: 0 <= j < r.value ==> !OccursAt(s, pat, j)
    ensures r.None? ==> forall j :: 0 <= j <= |s| ==> !OccursAt(s, pat, j)
  {
    FindFrom(s, pat, 0)
  }

  function FindFrom(s: string, pat: string, k: nat): (r: Option<nat>)
    requires k <= |s| + 1
    ensures r.Some? ==> k <= r.value && OccursAt(s, pat, r.value)
    ensures r.Some? ==> forall j :: k <= j < r.value ==> !OccursAt(s, pat, j)
    ensures r.None? ==> forall j :: k <= j <= |s| ==> !OccursAt(s, pat, j)
    decreases |s| + 1 - k
  {
    if k > |s| then None
    else if OccursAt(s, pat, k) then Some(k)
    else FindFrom(s, pat, k + 1)
  }

  /** `s[k:].split(c)[0]`: the text from `k` up to the next `c` or the end. */
  function UpTo(s: string, k: nat, c: char): (r: string)
    requires k <= |s|
    ensures k + |r| <= |s| && r == s[k..k + |r|]
    ensures c !in r
    ensures k + |r| == |s| || s[k + |r|] == c
    decreases |s| - k
  {
    if k == |s| || s[k] == c then [] else [s[k]] + UpTo(s, k + 1, c)
  }

  /** `str(n)` for a natural number: its decimal digits, without leading zeros. */
  function NatText(n: nat): (r: string)
    ensures |r| > 0
    ensures forall i :: 0 <= i < |r| ==> '0' <= r[i] <= '9'
    ensures n > 0 ==> r[0] != '0'
  {
    if n < 10 then [('0' as int + n) as char]
    else NatText(n / 10) + [('0' as int + n % 10) as char]
  }

  /** `str(n)` for an integer: a minus sign before the digits of a negative number. */
  function IntText(n: int): (r: string)
    ensures |r| > 0
    ensures (r[0] == '-') == (n < 0)
  {
    if n < 0 then "-" + NatText(-n) else NatText(n)
  }
}
