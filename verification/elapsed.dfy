/**
 The elapsed-time read-out of the status item: whole seconds since the mode
 started, split into hours, minutes and seconds with Swift's integer
 operators, which truncate toward zero (unlike Dafny's Euclidean `/` and `%`).
 */
module Elapsed {

  /** Swift's `a / b` for a positive divisor: the quotient rounded toward zero. */
  function SwiftDiv(a: int, b: int): (q: int)
    requires b > 0
    ensures a >= 0 ==> q >= 0 && q * b <= a < q * b + b
    ensures a < 0 ==> q <= 0 && q * b - b < a <= q * b
  {
    if a >= 0 then
      EuclidDiv(a, b);
      a / b
    else
      EuclidDiv(-a, b);
      -((-a) / b)
  }

  /** Dafny's division of a non-negative number, in product form. */
  lemma EuclidDiv(a: int, b: int)
    requires a >= 0 && b > 0
    ensures a / b >= 0 && (a / b) * b <= a < (a / b) * b + b
  {
    var q := a / b;
    var r := a % b;
    assert a == q * b + r;
    if q < 0 {
      MulAtLeast(-q, b);
    }
  }

  /** A positive multiple of a positive number is at least that number. */
  lemma MulAtLeast(x: int, b: int)
    requires x >= 1 && b > 0
    ensures x * b >= b
  {
    assert x * b == (x - 1) * b + b;
    assert (x - 1) * b >= 0;
  }

  /** Swift's `a % b`: the remainder that goes with `SwiftDiv`, carrying the
      sign of the dividend. */
  function SwiftRem(a: int, b: int): (m: int)
    requires b > 0
    ensures SwiftDiv(a, b) * b + m == a
    ensures a >= 0 ==> 0 <= m < b
    ensures a < 0 ==> -b < m <= 0
  {
    a - SwiftDiv(a, b) * b
  }

  datatype Hms = Hms(h: int, m: int, s: int)

  /** `Int(interval)` of an interval measured in milliseconds: truncation of
      the fractional seconds toward zero. */
  function ElapsedSeconds(startMs: int, nowMs: int): (secs: int)
    ensures nowMs >= startMs ==> secs >= 0 && secs * 1000 <= nowMs - startMs < secs * 1000 + 1000
  {
    SwiftDiv(nowMs - startMs, 1000)
  }

  /** The h/m/s split of `updateIcon`: h = secs / 3600,
      m = (secs % 3600) / 60, s = secs % 60. */
  function Split(secs: int): (r: Hms)
    ensures r.h * 3600 + r.m * 60 + r.s == secs
    ensures secs >= 0 ==> r.h >= 0 && 0 <= r.m < 60 && 0 <= r.s < 60
    ensures secs < 0 ==> r.h <= 0 && -60 < r.m <= 0 && -60 < r.s <= 0
  {
    var h := SwiftDiv(secs, 3600);
    var rem := SwiftRem(secs, 3600);
    var m := SwiftDiv(rem, 60);
    var s := SwiftRem(secs, 60);
    SplitRecombines(secs, h, rem, m, s);
    Hms(h, m, s)
  }

  lemma SplitRecombines(secs: int, h: int, rem: int, m: int, s: int)
    requires h == SwiftDiv(secs, 3600) && rem == SwiftRem(secs, 3600)
    requires m == SwiftDiv(rem, 60) && s == SwiftRem(secs, 60)
    ensures h * 3600 + m * 60 + s == secs
    ensures secs >= 0 ==> h >= 0 && 0 <= m < 60 && 0 <= s < 60
    ensures secs < 0 ==> h <= 0 && -60 < m <= 0 && -60 < s <= 0
  {
    var sr := SwiftRem(rem, 60);
    assert h * 3600 + rem == secs;
    assert m * 60 + sr == rem;
    // s and the remainder of rem agree: secs and rem differ by a multiple of 60
    assert secs == (h * 60 + m) * 60 + sr;
    if secs >= 0 {
      assert 0 <= rem < 3600 && 0 <= sr < 60;
      RemUnique(secs, 60, h * 60 + m, sr);
    } else {
      assert -3600 < rem <= 0 && -60 < sr <= 0;
      RemUnique(secs, 60, h * 60 + m, sr);
    }
  }

  /** A quotient/remainder pair with the remainder's sign following the
      dividend is Swift's. */
  lemma {:induction false} RemUnique(a: int, b: int, q: int, r: int)
    requires b > 0
    requires a == q * b + r
    requires a >= 0 ==> 0 <= r < b
    requires a < 0 ==> -b < r <= 0
    ensures SwiftDiv(a, b) == q && SwiftRem(a, b) == r
  {
    var q' := SwiftDiv(a, b);
    var r' := SwiftRem(a, b);
    assert (q - q') * b == r' - r;
    if q > q' {
      MulAtLeast(q - q', b);
    } else if q < q' {
      MulAtLeast(q' - q, b);
    }
  }

  /** The hour field is shown exactly when at least an hour has elapsed. */
  function ShowsHours(secs: int): (b: bool)
    ensures b <==> secs >= 3600
  {
    Split(secs).h > 0
  }

  /** For a non-negative count, the split is the unique clock reading with
      minutes and seconds below sixty. */
  lemma SplitUnique(secs: int, h: int, m: int, s: int)
    requires h * 3600 + m * 60 + s == secs
    requires 0 <= m < 60 && 0 <= s < 60 && h >= 0
    ensures Split(secs) == Hms(h, m, s)
  {
    RemUnique(secs, 60, h * 60 + m, s);
    RemUnique(secs, 3600, h, m * 60 + s);
    RemUnique(m * 60 + s, 60, m, s);
  }
}
