/**
 * Small shared vocabulary: Option and Result (usable with `:-`) and the
 * handful of Python string operations the front-end relies on, restricted
 * to ASCII (`str.lower`, `str.upper`, `str.isdigit`, `in`, `startswith`,
 * `endswith`, slicing with a negative end, `"".join`).
 */
module Basics {

  datatype Option<+T> = None | Some(value: T)

  datatype Result<+T, +E> = Ok(value: T) | Err(error: E) {
    predicate IsFailure() { Err? }
    function PropagateFailure<U>(): Result<U, E>
      requires Err?
    {
      Err(error)
    }
    function Extract(): T
      requires Ok?
    {
      value
    }
  }

  // ---------------------------------------------------------------- characters

  predicate IsUpperChar(c: char) { 'A' <= c <= 'Z' }
  predicate IsLowerChar(c: char) { 'a' <= c <= 'z' }
  predicate IsDigitChar(c: char) { '0' <= c <= '9' }

  function LowerChar(c: char): (r: char)
    ensures !IsUpperChar(r)
    ensures IsUpperChar(c) ==> IsLowerChar(r)
    ensures IsUpperChar(c) || r == c
  {
    if IsUpperChar(c) then (c as int + 32) as char else c
  }

  function UpperChar(c: char): (r: char)
    ensures !IsLowerChar(r)
    ensures IsLowerChar(c) || r == c
  {
    if IsLowerChar(c) then (c as int - 32) as char else c
  }

  /** `str.lower()` on ASCII text. */
  function Lower(s: string): (r: string)
    ensures |r| == |s|
    ensures forall i :: 0 <= i < |s| ==> r[i] == LowerChar(s[i])
  {
    if s == [] then [] else [LowerChar(s[0])] + Lower(s[1..])
  }

  /** `str.upper()` on ASCII text. */
  function Upper(s: string): (r: string)
    ensures |r| == |s|
    ensures forall i :: 0 <= i < |s| ==> r[i] == UpperChar(s[i])
  {
    if s == [] then [] else [UpperChar(s[0])] + Upper(s[1..])
  }

  predicate IsLowerCase(s: string) { forall i :: 0 <= i < |s| ==> !IsUpperChar(s[i]) }

  lemma LowerIsLowerCase(s: string)
    ensures IsLowerCase(Lower(s))
  {
  }

  lemma LowerOfLowerCase(s: string)
    requires IsLowerCase(s)
    ensures Lower(s) == s
  {
  }

  lemma LowerConcat(a: string, b: string)
    ensures Lower(a + b) == Lower(a) + Lower(b)
  {
  }

  /** Upper-casing a lower-case identifier and lower-casing it again gives it back. */
  lemma LowerUpperOfLowerCase(s: string)
    requires IsLowerCase(s)
    ensures Lower(Upper(s)) == s
  {
  }

  /** `str.isdigit()` for ASCII: non-empty and every character a decimal digit. */
  predicate IsDigits(s: string)
  {
    |s| > 0 && forall i :: 0 <= i < |s| ==> IsDigitChar(s[i])
  }

  /** `int(s)` for an ASCII digit string. */
  function DigitsValue(s: string): (n: nat)
    requires forall i :: 0 <= i < |s| ==> IsDigitChar(s[i])
    decreases |s|
  {
    if s == [] then 0
    else
      assert IsDigitChar(s[|s| - 1]);
      10 * DigitsValue(s[..|s| - 1]) + (s[|s| - 1] as int - '0' as int)
  }

  function DigitChar(d: nat): (c: char)
    requires d < 10
    ensures IsDigitChar(c)
  {
    ('0' as int + d) as char
  }

  /** The decimal spelling of a natural number, as `str(n)` gives it. */
  function NatToString(n: nat): (s: string)
    ensures IsDigits(s)
    decreases n
  {
    if n < 10 then [DigitChar(n)] else NatToString(n / 10) + [DigitChar(n % 10)]
  }

  /** `str(n)` for an integer: a minus sign only for negative numbers. */
  function IntToString(n: int): string
  {
    if n < 0 then "-" + NatToString(-n) else NatToString(n)
  }

  lemma {:induction false} DigitsRoundTrip(n: nat)
    ensures DigitsValue(NatToString(n)) == n
    decreases n
  {
    if n >= 10 {
      var s := NatToString(n / 10);
      DigitsRoundTrip(n / 10);
      assert (s + [DigitChar(n % 10)])[..|s|] == s;
    }
  }

  // ---------------------------------------------------------------- strings

  function StartsWith(s: string, p: string): bool
  {
    |p| <= |s| && s[..|p|] == p
  }

  function EndsWith(s: string, p: string): bool
  {
    |p| <= |s| && s[|s| - |p|..] == p
  }

  /** Python's `needle in hay` for strings. */
  function Contains(hay: string, needle: string): (b: bool)
    decreases |hay|
  {
    StartsWith(hay, needle) || (hay != [] && Contains(hay[1..], needle))
  }

  lemma {:induction false} ContainsAt(hay: string, needle: string, i: nat)
    requires i + |needle| <= |hay| && hay[i..i + |needle|] == needle
    ensures Contains(hay, needle)
    decreases i
  {
    if i > 0 {
      assert hay[1..][i - 1..i - 1 + |needle|] == hay[i..i + |needle|];
      ContainsAt(hay[1..], needle, i - 1);
    }
  }

  /** Python's `s[i:j]` for 0 <= i and j a (possibly smaller) end position:
      an empty result when the bounds cross. */
  function PySlice(s: string, i: nat, j: int): (r: string)
    ensures i <= j <= |s| ==> r == s[i..j]
    ensures j < i ==> r == []
  {
    var hi := if j > |s| then |s| else j;
    if i >= hi || i >= |s| then [] else s[i..hi]
  }

  /** Concatenation of a list of strings (or token lists), `"".join(xs)`. */
  function Concat<T>(xs: seq<seq<T>>): (r: seq<T>)
  {
    if xs == [] then [] else xs[0] + Concat(xs[1..])
  }

  lemma {:induction false} ConcatAppend<T>(xs: seq<seq<T>>, ys: seq<seq<T>>)
    ensures Concat(xs + ys) == Concat(xs) + Concat(ys)
  {
    if xs != [] {
      assert (xs + ys)[1..] == xs[1..] + ys;
      ConcatAppend(xs[1..], ys);
      calc {
        Concat(xs + ys);
        (xs + ys)[0] + Concat((xs + ys)[1..]);
        xs[0] + (Concat(xs[1..]) + Concat(ys));
      }
    } else {
      assert xs + ys == ys;
    }
  }

  /** `sep.join(xs)`. */
  function Join<T>(sep: seq<T>, xs: seq<seq<T>>): (r: seq<T>)
  {
    if xs == [] then [] else if |xs| == 1 then xs[0] else xs[0] + sep + Join(sep, xs[1..])
  }

  /** `a` is a suffix of `b`: what is left of a stream after reading from it. */
  predicate IsSuffix<T(==)>(a: seq<T>, b: seq<T>)
  {
    |a| <= |b| && b[|b| - |a|..] == a
  }

  lemma SuffixTrans<T>(a: seq<T>, b: seq<T>, c: seq<T>)
    requires IsSuffix(a, b) && IsSuffix(b, c)
    ensures IsSuffix(a, c)
  {
    assert c[|c| - |a|..] == c[|c| - |b|..][|b| - |a|..];
  }

  lemma SuffixOfTail<T>(a: seq<T>, b: seq<T>, n: nat)
    requires n <= |b| && IsSuffix(a, b[n..])
    ensures IsSuffix(a, b)
  {
    assert b[|b| - |a|..] == b[n..][|b[n..]| - |a|..];
  }
}
