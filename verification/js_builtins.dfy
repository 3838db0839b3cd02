/**
 * The few JavaScript built-ins the modelled code relies on, stated over
 * mathematical values: `Math.round`, `Number.prototype.toString(radix)`,
 * `String.prototype.padStart`, `startsWith`, a global `replace` of one
 * character and a `replace(/c+$/, "")` that strips a trailing run.
 */
module JsBuiltins {
  import opened Wrappers

  /** A JavaScript number as far as this model needs it: finite values are
      reals, and NaN and the infinities are lumped together. */
  datatype Number = Finite(value: real) | NonFinite

  /** One element of a `Uint8Array`. */
  type Byte = x: int | 0 <= x < 256

  /** `Math.round`: the nearest integer, halves rounded towards +infinity. */
  function Round(x: real): (r: int)
    ensures r as real - 0.5 <= x < r as real + 0.5
  {
    (x + 0.5).Floor
  }

  lemma {:induction false} RoundMonotone(x: real, y: real)
    requires x <= y
    ensures Round(x) <= Round(y)
  {
    assert x + 0.5 <= y + 0.5;
  }

  /** A digit of `toString(radix)`: `0`-`9`, then lower-case `a`-`z`. */
  function Digit(d: nat): (c: char)
    requires d < 36
    ensures '0' <= c <= '9' || 'a' <= c <= 'z'
  {
    if d < 10 then ('0' as int + d) as char else ('a' as int + d - 10) as char
  }

  /** The value of a digit character in any radix up to 36, `None` for
      anything else (upper case included). */
  function DigitValue(c: char): (r: Option<nat>)
    ensures r.Some? ==> r.value < 36 && Digit(r.value) == c
  {
    if '0' <= c <= '9' then Some(c as int - '0' as int)
    else if 'a' <= c <= 'z' then Some(c as int - 'a' as int + 10)
    else None
  }

  lemma DigitValueOfDigit(d: nat)
    requires d < 36
    ensures DigitValue(Digit(d)) == Some(d)
  {
  }

  /** Euclidean division facts for a positive radix, stated once so that the
      recursive definitions below stay linear for the solver. */
  lemma DivModRadix(n: nat, radix: nat)
    requires 2 <= radix <= 36
    ensures n == (n / radix) * radix + n % radix
    ensures 0 <= n % radix < radix
    ensures n >= radix ==> 1 <= n / radix < n
  {
  }

  /** `n.toString(radix)` for a non-negative integer below 10^21 (above that
      JavaScript switches to exponent notation; no caller gets there). */
  function ToStringRadix(n: nat, radix: nat): (r: string)
    requires 2 <= radix <= 36
    ensures 1 <= |r|
    ensures n > 0 ==> r[0] != '0'
    decreases n
  {
    if n < radix then [Digit(n)]
    else
      DivModRadix(n, radix);
      ToStringRadix(n / radix, radix) + [Digit(n % radix)]
  }

  /** Reads a non-empty string of radix digits back into its value. */
  function ParseRadix(s: string, radix: nat): (r: Option<nat>)
    requires 2 <= radix <= 36
    ensures r.Some? ==> |s| >= 1
    decreases |s|
  {
    if |s| == 0 then None
    else
      var last := DigitValue(s[|s| - 1]);
      if last.None? || last.value >= radix then None
      else if |s| == 1 then last
      else
        match ParseRadix(s[..|s| - 1], radix)
        case None => None
        case Some(high) => Some(high * radix + last.value)
  }

  /** Reading back what `toString(radix)` wrote gives the number again. */
  lemma {:induction false} ParseToStringRadix(n: nat, radix: nat)
    requires 2 <= radix <= 36
    ensures ParseRadix(ToStringRadix(n, radix), radix) == Some(n)
    decreases n
  {
    if n < radix {
      DigitValueOfDigit(n);
    } else {
      DivModRadix(n, radix);
      var s := ToStringRadix(n, radix);
      var high := ToStringRadix(n / radix, radix);
      assert s == high + [Digit(n % radix)];
      assert s[..|s| - 1] == high;
      DigitValueOfDigit(n % radix);
      ParseToStringRadix(n / radix, radix);
    }
  }

  /** `s.padStart(len, [fill])` with a one-character fill string. */
  function PadStart(s: string, len: nat, fill: char): (r: string)
    ensures |r| == if |s| >= len then |s| else len
    ensures r[|r| - |s|..] == s
    ensures forall i :: 0 <= i < |r| - |s| ==> r[i] == fill
  {
    if |s| >= len then s else seq(len - |s|, _ => fill) + s
  }

  /** A number with at most two digits in a radix, written in that radix
      and padded to two places, is its two digits. */
  lemma PaddedTwoDigits(n: nat, radix: nat)
    requires 2 <= radix <= 36 && n / radix < radix
    ensures PadStart(ToStringRadix(n, radix), 2, '0') == [Digit(n / radix), Digit(n % radix)]
  {
    var t := ToStringRadix(n, radix);
    if n < radix {
      assert n / radix == 0 && n % radix == n by {
        DivModRadix(n, radix);
      }
      assert t == [Digit(n)];
      assert PadStart(t, 2, '0') == ['0'] + t;
    } else {
      var q := n / radix;
      assert t == ToStringRadix(q, radix) + [Digit(n % radix)];
      assert ToStringRadix(q, radix) == [Digit(q)];
    }
  }

  /** `s.startsWith(prefix)`. */
  predicate StartsWith(s: string, prefix: string) {
    |prefix| <= |s| && s[..|prefix|] == prefix
  }

  /** `s.replace(/c/g, d)` for single characters `c` and `d`. */
  function ReplaceAll(s: string, from: char, to: char): (r: string)
    ensures |r| == |s|
    ensures forall i :: 0 <= i < |s| && s[i] != from ==> r[i] == s[i]
    ensures forall i :: 0 <= i < |s| && s[i] == from ==> r[i] == to
  {
    seq(|s|, i requires 0 <= i < |s| => if s[i] == from then to else s[i])
  }

  /** `s.replace(/c+$/, "")`: removes the longest run of `c` ending the string. */
  function StripTrailing(s: string, c: char): (r: string)
    ensures |r| <= |s| && r == s[..|r|]
    ensures |r| == 0 || r[|r| - 1] != c
    ensures forall i :: |r| <= i < |s| ==> s[i] == c
  {
    if |s| > 0 && s[|s| - 1] == c then StripTrailing(s[..|s| - 1], c) else s
  }

  /** Stripping a trailing run from a string that ends in that run and
      nothing more of it leaves the string before the run. */
  lemma {:induction false} StripTrailingRun(u: string, run: string, c: char)
    requires |u| == 0 || u[|u| - 1] != c
    requires forall i :: 0 <= i < |run| ==> run[i] == c
    ensures StripTrailing(u + run, c) == u
    decreases |run|
  {
    if |run| > 0 {
      var s := u + run;
      assert s[..|s| - 1] == u + run[..|run| - 1];
      StripTrailingRun(u, run[..|run| - 1], c);
    } else {
      assert u + run == u;
    }
  }
}
