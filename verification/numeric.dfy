/**
 * Number helpers: `Math.abs` for the touch and swipe classifiers, and the
 * facts about `%` that the carousel's wrap-around needs.
 */
module Numeric {

  /** `Math.abs` on the reals. */
  function Abs(r: real): (a: real)
    ensures a >= 0.0 && (a == r || a == -r)
  {
    if r < 0.0 then -r else r
  }

  lemma {:induction false} MulAtLeast(d: int, c: int)
    requires d >= 1 && c >= 1
    ensures d * c >= c
    decreases d
  {
    if d > 1 {
      MulAtLeast(d - 1, c);
      assert d * c == (d - 1) * c + c;
    }
  }

  /** The remainder is the only `r` in [0, c) with `x == q * c + r` for some `q`. */
  lemma ModUnique(x: int, c: int, q: int, r: int)
    requires c >= 1 && 0 <= r < c && x == q * c + r
    ensures x % c == r
  {
    var q0 := x / c;
    var r0 := x % c;
    assert x == q0 * c + r0;
    if q > q0 {
      MulAtLeast(q - q0, c);
    } else if q < q0 {
      MulAtLeast(q0 - q, c);
    }
  }

  /** Counting on by one modulo `c` from a remainder is counting on by one from the number. */
  lemma ModSucc(x: nat, c: nat)
    requires c >= 1
    ensures ((x % c) + 1) % c == (x + 1) % c
  {
    var q := x / c;
    var r := x % c;
    assert x == q * c + r;
    if r + 1 < c {
      ModUnique(x + 1, c, q, r + 1);
      ModUnique(r + 1, c, 0, r + 1);
    } else {
      assert (q + 1) * c == q * c + c;
      ModUnique(x + 1, c, q + 1, 0);
      ModUnique(r + 1, c, 1, 0);
    }
  }

}
