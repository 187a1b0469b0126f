/**
 * The JavaScript built-ins the form logic relies on, on strings of Unicode
 * scalar values: `String(undefined)`, the `\s` character class and `trim`,
 * `length` in UTF-16 code units, `indexOf`, `replace` of the first
 * occurrence, and `toLowerCase` (ASCII letters only).
 */
module Js {

  datatype Option<T> = None | Some(value: T)

  /** How a call ends: it returns a value, or it throws an error of the named kind. */
  datatype Completion<T> = Normal(value: T) | Throw(error: string)

  /** `String(v)` for a property that holds a string or is `undefined`. */
  function ToString(v: Option<string>): (s: string)
    ensures v.Some? ==> s == v.value
    ensures v.None? ==> s == "undefined"
  {
    match v
    case Some(s) => s
    case None => "undefined"
  }

  /** ECMAScript LineTerminator code points (what `.` in a pattern does not match). */
  predicate IsLineTerminator(c: char)
  {
    var n := c as int;
    n == 0x0A || n == 0x0D || n == 0x2028 || n == 0x2029
  }

  /**
   * ECMAScript WhiteSpace and LineTerminator code points: the class `\s` of a
   * regular expression, and what `String.prototype.trim` removes.
   */
  predicate IsWhitespace(c: char)
    ensures IsLineTerminator(c) ==> IsWhitespace(c)
    ensures '!' <= c <= '~' ==> !IsWhitespace(c)
    ensures IsWhitespace(c) ==> !IsAstral(c)
  {
    var n := c as int;
    IsLineTerminator(c) ||
    n == 0x09 || n == 0x0B || n == 0x0C || n == 0x20 || n == 0xA0 || n == 0x1680 ||
    (0x2000 <= n <= 0x200A) || n == 0x202F || n == 0x205F || n == 0x3000 || n == 0xFEFF
  }

  /** A code point that a JavaScript string stores as a surrogate pair. */
  predicate IsAstral(c: char)
  {
    c as int >= 0x10000
  }

  /** `s.length`: the number of UTF-16 code units of `s`. */
  function Utf16Length(s: string): (n: nat)
    ensures |s| <= n <= 2 * |s|
  {
    if s == [] then 0 else (if IsAstral(s[0]) then 2 else 1) + Utf16Length(s[1..])
  }

  /** A string takes at least two code units exactly when it has two characters or one astral one. */
  lemma {:induction false} Utf16AtLeastTwo(s: string)
    ensures Utf16Length(s) >= 2 <==> |s| >= 2 || (|s| == 1 && IsAstral(s[0]))
  {
    if |s| == 1 {
      assert s[1..] == [];
    }
  }

  /** `s.trimStart()`: drops the leading whitespace and nothing else. */
  function TrimStart(s: string): (r: string)
    ensures |r| <= |s| && r == s[|s| - |r|..]
    ensures forall k :: 0 <= k < |s| - |r| ==> IsWhitespace(s[k])
    ensures r == [] || !IsWhitespace(r[0])
  {
    if s != [] && IsWhitespace(s[0]) then
      var r := TrimStart(s[1..]);
      assert forall k :: 1 <= k < |s| - |r| ==> s[k] == s[1..][k - 1];
      r
    else
      s
  }

  /** `s.trimEnd()`: drops the trailing whitespace and nothing else. */
  function TrimEnd(s: string): (r: string)
    ensures |r| <= |s| && r == s[..|r|]
    ensures forall k :: |r| <= k < |s| ==> IsWhitespace(s[k])
    ensures r == [] || !IsWhitespace(r[|r| - 1])
  {
    if s != [] && IsWhitespace(s[|s| - 1]) then
      var r := TrimEnd(s[..|s| - 1]);
      assert forall k :: |r| <= k < |s| - 1 ==> s[k] == s[..|s| - 1][k];
      r
    else
      s
  }

  /** `s.trim()`: drops the leading and the trailing whitespace. */
  function Trim(s: string): (r: string)
    ensures |r| <= |s|
    ensures r == [] || (!IsWhitespace(r[0]) && !IsWhitespace(r[|r| - 1]))
  {
    TrimEnd(TrimStart(s))
  }

  /**
   * What `trim` keeps is one slice of the string, and everything outside
   * that slice is whitespace.
   */
  lemma TrimSlice(s: string) returns (d: nat)
    ensures d + |Trim(s)| <= |s| && Trim(s) == s[d..d + |Trim(s)|]
    ensures forall k :: 0 <= k < |s| && !(d <= k < d + |Trim(s)|) ==> IsWhitespace(s[k])
  {
    var t := TrimStart(s);
    d := |s| - |t|;
    TrimEndSlice(s, d, t);
  }

  /** `trimEnd` on a suffix of `s` after whitespace keeps a slice of `s` with whitespace on both sides. */
  lemma TrimEndSlice(s: string, d: nat, t: string)
    requires d <= |s| && t == s[d..]
    requires forall k :: 0 <= k < d ==> IsWhitespace(s[k])
    ensures d + |TrimEnd(t)| <= |s| && TrimEnd(t) == s[d..d + |TrimEnd(t)|]
    ensures forall k :: 0 <= k < |s| && !(d <= k < d + |TrimEnd(t)|) ==> IsWhitespace(s[k])
  {
    var r := TrimEnd(t);
    assert r == t[..|r|];
    forall k | 0 <= k < |s| && d + |r| <= k ensures IsWhitespace(s[k]) {
      assert s[k] == t[k - d];
    }
  }

  /** `p` occurs in `s` starting at index `i`. */
  predicate OccursAt(s: string, p: string, i: int)
  {
    0 <= i && i + |p| <= |s| && s[i..i + |p|] == p
  }

  /** `s.indexOf(p, from)`: the first index at or after `from` where `p` occurs, or -1. */
  function IndexOfFrom(s: string, p: string, from: nat): (r: int)
    requires from <= |s|
    ensures r == -1 || (from <= r && OccursAt(s, p, r))
    ensures forall k :: from <= k && (r == -1 || k < r) ==> !OccursAt(s, p, k)
    decreases |s| - from
  {
    if from + |p| > |s| then -1
    else if s[from..from + |p|] == p then from
    else IndexOfFrom(s, p, from + 1)
  }

  /** `s.indexOf(p)`. */
  function IndexOf(s: string, p: string): (r: int)
    ensures r == -1 || OccursAt(s, p, r)
    ensures forall k :: 0 <= k && (r == -1 || k < r) ==> !OccursAt(s, p, k)
  {
    IndexOfFrom(s, p, 0)
  }

  /**
   * `s.replace(p, '')`: removes the first occurrence of `p`, if any.
   * Putting `p` back where it was gives `s` again.
   */
  function RemoveFirst(s: string, p: string): (r: string)
    ensures IndexOf(s, p) == -1 ==> r == s
    ensures IndexOf(s, p) != -1 ==>
      |r| == |s| - |p| && s == r[..IndexOf(s, p)] + p + r[IndexOf(s, p)..]
  {
    var i := IndexOf(s, p);
    if i == -1 then s
    else
      var r := s[..i] + s[i + |p|..];
      assert r[..i] == s[..i] && r[i..] == s[i + |p|..];
      assert s == s[..i] + s[i..i + |p|] + s[i + |p|..];
      r
  }

  function LowerAscii(c: char): char
  {
    if 'A' <= c <= 'Z' then (c as int - 'A' as int + 'a' as int) as char else c
  }

  /** `s.toLowerCase()` on ASCII letters: the same characters, none of them an upper-case letter. */
  function ToLowerCase(s: string): (r: string)
    ensures |r| == |s|
    ensures forall k :: 0 <= k < |s| ==> r[k] == LowerAscii(s[k])
    ensures forall k :: 0 <= k < |r| ==> !('A' <= r[k] <= 'Z')
  {
    if s == [] then [] else [LowerAscii(s[0])] + ToLowerCase(s[1..])
  }
}
