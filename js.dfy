/** The JavaScript semantics the application code relies on, over exact reals:
    Math.round, Math.floor, the truncating `%`, Math.min/Math.max clamping,
    String.prototype.split / Array.prototype.join on one separator character,
    and Array.prototype.slice. */
module Js {

  /** Math.PI: the double nearest to pi, exactly 884279719003555 / 2^48 (its shortest
      decimal form, 3.141592653589793, is 1.16e-16 below it). */
  const PI: real := 884279719003555.0 / 281474976710656.0

  /** Math.floor. */
  function Floor(x: real): int { x.Floor }

  /** Math.round: the nearest integer, halves rounded towards +infinity. */
  function Round(x: real): (n: int)
    ensures n as real - 0.5 <= x < n as real + 0.5
  {
    (x + 0.5).Floor
  }

  /** Truncation towards zero, the integer part that `%` removes. */
  function Trunc(q: real): (t: int)
    ensures q >= 0.0 ==> 0 <= t && t as real <= q < t as real + 1.0
    ensures q < 0.0 ==> t <= 0 && t as real - 1.0 < q <= t as real
  {
    if q >= 0.0 then q.Floor else -((-q).Floor)
  }

  /** The `%` operator on numbers: the remainder takes the sign of the dividend. */
  function Rem(x: real, m: real): real
    requires m > 0.0
  {
    x - m * (Trunc(x / m) as real)
  }

  /** `x % (2 * Math.PI)` lies strictly inside (-2 pi, 2 pi) and keeps the sign of `x`. */
  lemma RemTwoPiBounds(x: real)
    ensures x >= 0.0 ==> 0.0 <= Rem(x, 2.0 * PI) < 2.0 * PI
    ensures x < 0.0 ==> -2.0 * PI < Rem(x, 2.0 * PI) <= 0.0
  {
  }

  /** A value already in [0, 2 pi) is its own remainder. */
  lemma RemTwoPiOfReduced(x: real)
    requires 0.0 <= x < 2.0 * PI
    ensures Rem(x, 2.0 * PI) == x
  {
  }

  /** Math.max(lo, Math.min(hi, x)). */
  function Clamp(lo: real, hi: real, x: real): (r: real)
    requires lo <= hi
    ensures lo <= r <= hi
    ensures lo <= x <= hi ==> r == x
    ensures x < lo ==> r == lo
    ensures hi < x ==> r == hi
  {
    if x < lo then lo else if hi < x then hi else x
  }

  /** Clamp's integer instance, Math.max(lo, Math.min(hi, n)) on whole numbers: Dafny
      keeps `int` and `real` apart, and the codec clamps a word index. */
  function ClampInt(lo: int, hi: int, n: int): (r: int)
    requires lo <= hi
    ensures lo <= r <= hi
    ensures lo <= n <= hi ==> r == n
    ensures n < lo ==> r == lo
    ensures hi < n ==> r == hi
  {
    if n < lo then lo else if hi < n then hi else n
  }

  function MinNat(a: nat, b: nat): nat { if a <= b then a else b }

  /** `s.split(sep)` for a one-character separator: the pieces between separators,
      an empty piece wherever two separators meet or one stands at an end. */
  function Split(s: string, sep: char): (parts: seq<string>)
    ensures |parts| >= 1
    ensures forall j :: 0 <= j < |parts| ==> sep !in parts[j]
    ensures Join(parts, sep) == s
    ensures |parts| == Occurrences(s, sep) + 1
  {
    if s == [] then [""]
    else
      var rest := Split(s[1..], sep);
      if s[0] == sep then
        [""] + rest
      else
        [[s[0]] + rest[0]] + rest[1..]
  }

  /** `parts.join(sep)`. */
  function Join(parts: seq<string>, sep: char): string
  {
    if |parts| == 0 then ""
    else if |parts| == 1 then parts[0]
    else parts[0] + [sep] + Join(parts[1..], sep)
  }

  /** How many times `c` occurs in `s`. */
  function Occurrences(s: string, c: char): nat
  {
    if s == [] then 0 else (if s[0] == c then 1 else 0) + Occurrences(s[1..], c)
  }

  /** Splitting `w + [sep] + rest` yields `w` first when `w` holds no separator. */
  lemma {:induction false} SplitAfterWord(w: string, sep: char, rest: string)
    requires sep !in w
    ensures Split(w + [sep] + rest, sep) == [w] + Split(rest, sep)
  {
    if w == [] {
      assert w + [sep] + rest == [sep] + rest;
      assert ([sep] + rest)[1..] == rest;
    } else {
      assert (w + [sep] + rest)[1..] == w[1..] + [sep] + rest;
      SplitAfterWord(w[1..], sep, rest);
      assert [w[0]] + w[1..] == w;
    }
  }

  /** A string without the separator splits into itself. */
  lemma {:induction false} SplitWord(w: string, sep: char)
    requires sep !in w
    ensures Split(w, sep) == [w]
  {
    if w != [] {
      SplitWord(w[1..], sep);
      assert [w[0]] + w[1..] == w;
    }
  }

  /** Split undoes Join on every non-empty list of separator-free pieces
      (Split's own contract gives the other direction, Join(Split(s)) == s). */
  lemma {:induction false} SplitJoin(parts: seq<string>, sep: char)
    requires |parts| >= 1
    requires forall j :: 0 <= j < |parts| ==> sep !in parts[j]
    ensures Split(Join(parts, sep), sep) == parts
  {
    if |parts| == 1 {
      SplitWord(parts[0], sep);
    } else {
      SplitJoin(parts[1..], sep);
      SplitAfterWord(parts[0], sep, Join(parts[1..], sep));
      assert [parts[0]] + parts[1..] == parts;
    }
  }

  /** `s.slice(start, end)` for non-negative arguments: both bounds are cut to the length. */
  function Slice<T>(s: seq<T>, start: nat, end: nat): (r: seq<T>)
    ensures start <= end <= |s| ==> r == s[start..end]
    ensures end <= start ==> r == []
    ensures |s| <= start ==> r == []
    ensures start <= |s| <= end ==> r == s[start..]
  {
    var a := MinNat(start, |s|);
    var b := MinNat(end, |s|);
    if a < b then s[a..b] else []
  }
}
