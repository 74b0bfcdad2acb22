/** Small shared vocabulary: an optional value, the last element of a
    sequence, the subsequence relation, and decimal text for natural numbers
    (the `\(n)` interpolation of an `Int` in the Swift sources). */
module Common {

  datatype Option<T> = None | Some(value: T)

  function Last<T>(s: seq<T>): T
    requires |s| > 0
  {
    s[|s| - 1]
  }

  function DropLast<T>(s: seq<T>): seq<T>
    requires |s| > 0
  {
    s[..|s| - 1]
  }

  function Abs(r: real): (a: real)
    ensures a >= 0.0 && (a == r || a == -r)
  {
    if r < 0.0 then -r else r
  }

  /** `a` is a subsequence of `b`: `b` with some elements left out, in order. */
  ghost predicate Embeds<T>(a: seq<T>, b: seq<T>)
    decreases |b|
  {
    if a == [] then true
    else if b == [] then false
    else (Last(a) == Last(b) && Embeds(DropLast(a), DropLast(b))) || Embeds(a, DropLast(b))
  }

  lemma {:induction false} EmbedsBounds<T>(a: seq<T>, b: seq<T>)
    requires Embeds(a, b)
    ensures |a| <= |b|
    ensures forall x :: x in a ==> x in b
    decreases |b|
  {
    if a == [] {
    } else if Last(a) == Last(b) && Embeds(DropLast(a), DropLast(b)) {
      EmbedsBounds(DropLast(a), DropLast(b));
      assert a == DropLast(a) + [Last(a)];
      assert b == DropLast(b) + [Last(b)];
    } else {
      EmbedsBounds(a, DropLast(b));
      assert b == DropLast(b) + [Last(b)];
    }
  }

  lemma {:induction false} EmbedsReflexive<T>(a: seq<T>)
    ensures Embeds(a, a)
    decreases |a|
  {
    if a != [] {
      EmbedsReflexive(DropLast(a));
    }
  }

  lemma EmbedsSnoc<T>(a: seq<T>, b: seq<T>, x: T)
    requires Embeds(a, b)
    ensures Embeds(a + [x], b + [x])
  {
    assert DropLast(a + [x]) == a;
    assert DropLast(b + [x]) == b;
  }

  lemma EmbedsExtend<T>(a: seq<T>, b: seq<T>, x: T)
    requires Embeds(a, b)
    ensures Embeds(a, b + [x])
  {
    assert DropLast(b + [x]) == b;
  }

  /** Concatenation is associative. */
  lemma Assoc<T>(a: seq<T>, b: seq<T>, c: seq<T>)
    ensures a + b + c == a + (b + c)
  {
  }

  // ---------------------------------------------------------------------
  // Decimal text of a natural number

  predicate IsDigit(c: char) {
    '0' <= c <= '9'
  }

  predicate IsDigits(s: string) {
    forall i :: 0 <= i < |s| ==> IsDigit(s[i])
  }

  function DigitChar(d: nat): (c: char)
    requires d < 10
    ensures IsDigit(c) && (c as int) - ('0' as int) == d
  {
    (('0' as int) + d) as char
  }

  /** The decimal numeral of `n`, most significant digit first, no leading zero. */
  function NatToDecimal(n: nat): (s: string)
    ensures |s| >= 1 && IsDigits(s)
    ensures s[0] == '0' ==> n == 0
    decreases n
  {
    if n < 10 then [DigitChar(n)] else NatToDecimal(n / 10) + [DigitChar(n % 10)]
  }

  /** The value of a decimal numeral. */
  function DecimalValue(s: string): nat
    requires IsDigits(s)
    decreases |s|
  {
    if s == [] then 0
    else 10 * DecimalValue(DropLast(s)) + ((Last(s) as int) - ('0' as int))
  }

  lemma {:induction false} DecimalRoundTrip(n: nat)
    ensures DecimalValue(NatToDecimal(n)) == n
    decreases n
  {
    if n >= 10 {
      DecimalRoundTrip(n / 10);
      assert DropLast(NatToDecimal(n)) == NatToDecimal(n / 10);
    }
  }

  // ---------------------------------------------------------------------
  // Stepping along a stride

  /** The remainder is the unique `r` with `x == q * step + r`, `0 <= r < step`. */
  lemma ModUnique(x: int, step: int, q: int, r: int)
    requires step > 0 && x == q * step + r && 0 <= r < step
    ensures x % step == r
  {
    var q', r' := x / step, x % step;
    assert x == q' * step + r';
    var d := q - q';
    assert d * step == r' - r;
    if d >= 1 {
      MulAtLeast(d, step);
    } else if d <= -1 {
      MulAtLeast(-d, step);
    }
  }

  lemma MulAtLeast(d: int, step: int)
    requires d >= 1 && step > 0
    ensures d * step >= step
  {
    assert d * step == (d - 1) * step + step;
    assert (d - 1) * step >= 0;
  }

  /** One more stride from a multiple of `step` is again a multiple of it. */
  lemma ModAddStep(x: int, step: int)
    requires step > 0 && x % step == 0
    ensures (x + step) % step == 0
  {
    var q := x / step;
    assert x == q * step;
    ModUnique(x + step, step, q + 1, 0);
  }

  /** `v` is reached from 0 by whole strides of `step`: the values of
      `stride(from: 0, to: _, by: step)`. */
  predicate OnStride(v: int, step: int)
    requires step > 0
    decreases if v < 0 then 0 else v
  {
    v == 0 || (v >= step && OnStride(v - step, step))
  }

  /** The next value of a stride is on it. */
  lemma StrideNext(v: int, step: int)
    requires step > 0 && OnStride(v, step)
    ensures OnStride(v + step, step)
  {
  }

  /** Two values of a stride less than one stride apart in that order are
      ordered: nothing of the stride lies strictly between `b` and `b + step`. */
  lemma {:induction false} StrideGap(a: int, b: int, step: int)
    requires step > 0 && OnStride(a, step) && OnStride(b, step) && a < b + step
    ensures a <= b
    decreases if b < 0 then 0 else b
  {
    if a > b && b != 0 {
      StrideGap(a - step, b - step, step);
    }
  }
}
