/** The few string operations the engine borrows from JavaScript:
    `trim`, `toLowerCase`, `endsWith` and `includes`. */
module Strings {

  /** The characters `String.prototype.trim` removes: ECMAScript's WhiteSpace
      (TAB, VT, FF, ZWNBSP and every space separator) and LineTerminator
      (LF, CR, LS, PS). */
  predicate IsTrimmable(c: char) {
    || c == '\t' || c == '\n' || c == '\U{000B}' || c == '\U{000C}' || c == '\r'
    || c == ' ' || c == '\U{00A0}' || c == '\U{1680}'
    || ('\U{2000}' <= c <= '\U{200A}')
    || c == '\U{2028}' || c == '\U{2029}' || c == '\U{202F}' || c == '\U{205F}'
    || c == '\U{3000}' || c == '\U{FEFF}'
  }

  /** `s` with its leading trimmable characters removed. */
  function TrimStart(s: string): (r: string)
    ensures |r| <= |s| && r == s[|s| - |r|..]
    ensures forall i :: 0 <= i < |s| - |r| ==> IsTrimmable(s[i])
    ensures r == [] || !IsTrimmable(r[0])
  {
    if |s| > 0 && IsTrimmable(s[0]) then TrimStart(s[1..]) else s
  }

  /** `s` with its trailing trimmable characters removed. */
  function TrimEnd(s: string): (r: string)
    ensures |r| <= |s| && r == s[..|r|]
    ensures forall i :: |r| <= i < |s| ==> IsTrimmable(s[i])
    ensures r == [] || !IsTrimmable(r[|r| - 1])
  {
    if |s| > 0 && IsTrimmable(s[|s| - 1]) then TrimEnd(s[..|s| - 1]) else s
  }

  /** JavaScript's `s.trim()`. */
  function Trim(s: string): (r: string)
    ensures |r| <= |s|
    ensures r == [] || (!IsTrimmable(r[0]) && !IsTrimmable(r[|r| - 1]))
  {
    TrimEnd(TrimStart(s))
  }

  /** What `trim()` keeps: one contiguous slice of `s`, with only trimmable
      characters cut from either side. Together with `Trim`'s own contract
      (no trimmable character at either end of the result) this fixes the
      result. */
  lemma TrimKeepsMiddle(s: string)
    ensures exists k :: Strips(s, k, Trim(s))
  {
    var u := TrimStart(s);
    var v := TrimEnd(u);
    var k := |s| - |u|;
    assert v == s[k..k + |v|] by {
      assert u == s[k..] && v == u[..|v|];
    }
    forall i | k + |v| <= i < |s|
      ensures IsTrimmable(s[i])
    {
      assert s[i] == u[i - k];
    }
    assert Trim(s) == v && Strips(s, k, v);
  }

  /** Conversely, the only such slice without a trimmable character at either
      end is the trim: `Strips` with clean ends is a reference definition of
      `trim()`. */
  lemma StripsIsTrim(s: string, k: int, r: string)
    requires Strips(s, k, r)
    requires r == [] || (!IsTrimmable(r[0]) && !IsTrimmable(r[|r| - 1]))
    ensures r == Trim(s)
  {
    if r == [] {
      assert forall i :: 0 <= i < |s| ==> IsTrimmable(s[i]);
      AllTrimmable(s);
    } else {
      CleanSliceIsTrim(s, k, r);
    }
  }

  /** The non-empty case of `StripsIsTrim`. */
  lemma CleanSliceIsTrim(s: string, k: int, r: string)
    requires Strips(s, k, r) && r != []
    requires !IsTrimmable(r[0]) && !IsTrimmable(r[|r| - 1])
    ensures Trim(s) == r
  {
    assert s[k] == r[0];
    TrimStartAt(s, k);
    var u := s[k..];
    TrailingRun(s, k, r);
    TrimEndAt(u, |r|);
    assert u[..|r|] == r;
  }

  /** After the slice, `s[k..]` holds only trimmable characters. */
  lemma TrailingRun(s: string, k: int, r: string)
    requires Strips(s, k, r) && r != [] && !IsTrimmable(r[|r| - 1])
    ensures var u := s[k..]; !IsTrimmable(u[|r| - 1]) && forall i :: |r| <= i < |u| ==> IsTrimmable(u[i])
  {
    var u := s[k..];
    assert u[|r| - 1] == r[|r| - 1];
    forall i | |r| <= i < |u|
      ensures IsTrimmable(u[i])
    {
      assert u[i] == s[k + i];
    }
  }

  /** A string of trimmable characters trims to the empty string. */
  lemma AllTrimmable(s: string)
    requires forall i :: 0 <= i < |s| ==> IsTrimmable(s[i])
    ensures Trim(s) == []
  {
  }

  /** The leading trimmable run of `s` ends at `k`. */
  lemma TrimStartAt(s: string, k: int)
    requires 0 <= k < |s| && !IsTrimmable(s[k])
    requires forall i :: 0 <= i < k ==> IsTrimmable(s[i])
    ensures TrimStart(s) == s[k..]
  {
    var u := TrimStart(s);
    assert |s| - |u| == k;
  }

  /** The trailing trimmable run of `u` starts at `n`. */
  lemma TrimEndAt(u: string, n: int)
    requires 0 < n <= |u| && !IsTrimmable(u[n - 1])
    requires forall i :: n <= i < |u| ==> IsTrimmable(u[i])
    ensures TrimEnd(u) == u[..n]
  {
    var v := TrimEnd(u);
    assert |v| == n;
  }

  /** `r` is the slice of `s` starting at `k`, and everything of `s` before
      and after that slice is trimmable. */
  predicate Strips(s: string, k: int, r: string) {
    && 0 <= k <= |s| - |r| && r == s[k..k + |r|]
    && (forall i :: 0 <= i < k ==> IsTrimmable(s[i]))
    && (forall i :: k + |r| <= i < |s| ==> IsTrimmable(s[i]))
  }

  /** A string with no trimmable character at either end is its own trim. */
  lemma TrimOfTrimmed(s: string)
    requires s == [] || (!IsTrimmable(s[0]) && !IsTrimmable(s[|s| - 1]))
    ensures Trim(s) == s
  {
  }

  /** Trimming twice is trimming once. */
  lemma TrimIdempotent(s: string)
    ensures Trim(Trim(s)) == Trim(s)
  {
    TrimOfTrimmed(Trim(s));
  }

  /** Trailing whitespace never survives a trim: `(s + " ").trim() == s.trim()`. */
  lemma {:induction false} TrimIgnoresTrailingSpace(s: string)
    ensures Trim(s + " ") == Trim(s)
  {
    var t := s + " ";
    if |s| > 0 && IsTrimmable(s[0]) {
      assert t[1..] == s[1..] + " ";
      TrimIgnoresTrailingSpace(s[1..]);
    } else if |s| == 0 {
      assert TrimStart(t) == [];
    } else {
      assert TrimStart(t) == t && TrimStart(s) == s;
      assert t[..|t| - 1] == s;
    }
  }

  /** A string ending in a non-trimmable character keeps that last character
      through the trim. */
  lemma TrimKeepsLastChar(s: string)
    requires |s| > 0 && !IsTrimmable(s[|s| - 1])
    ensures |Trim(s)| > 0 && Trim(s)[|Trim(s)| - 1] == s[|s| - 1]
  {
    var u := TrimStart(s);
    assert |u| > 0 && u[|u| - 1] == s[|s| - 1];
  }

  /** JavaScript's `toLowerCase` on one character, restricted to ASCII letters. */
  function LowerChar(c: char): (r: char)
    ensures 'A' <= c <= 'Z' ==> 'a' <= r <= 'z' && r as int - c as int == 32
    ensures !('A' <= c <= 'Z') ==> r == c
  {
    if 'A' <= c <= 'Z' then (c as int + 32) as char else c
  }

  /** JavaScript's `s.toLowerCase()`, restricted to ASCII letters. */
  function Lower(s: string): (r: string)
    ensures |r| == |s|
    ensures forall i :: 0 <= i < |s| ==> r[i] == LowerChar(s[i])
  {
    seq(|s|, i requires 0 <= i < |s| => LowerChar(s[i]))
  }

  /** `needle` occurs in `hay` starting at index `i`. */
  predicate OccursAt(hay: string, needle: string, i: int) {
    0 <= i && i + |needle| <= |hay| && hay[i..i + |needle|] == needle
  }

  /** JavaScript's `hay.includes(needle)`. */
  predicate Contains(hay: string, needle: string) {
    exists i | 0 <= i <= |hay| - |needle| :: OccursAt(hay, needle, i)
  }

  /** Every string includes the empty string. */
  lemma ContainsEmpty(hay: string)
    ensures Contains(hay, "")
  {
    assert OccursAt(hay, "", 0);
  }
}
