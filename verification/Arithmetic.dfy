/** Products, quotients and remainders of natural numbers. */
module Arithmetic {
  lemma ProductAtLeast(a: nat, n: nat, w: nat)
    requires a >= n
    ensures a * w >= n * w
  {
    assert (a - n) * w >= 0;
  }

  lemma QuotientUnique(q: nat, m: nat, a: nat, b: nat, w: nat)
    requires q * w + m == a * w + b && m < w && b < w
    ensures q == a && m == b
  {
    if q != a {
      var d := if q > a then q - a else a - q;
      ProductAtLeast(d, 1, w);
    }
  }

  lemma DivMod(a: nat, b: nat, w: nat)
    requires b < w
    ensures (a * w + b) / w == a && (a * w + b) % w == b
  {
    var n := a * w + b;
    assert n == n / w * w + n % w;
    QuotientUnique(n / w, n % w, a, b, w);
  }

  lemma ProductLess(a: nat, n: nat, b: nat, w: nat)
    requires a < n && b < w
    ensures a * w + b < n * w
  {
    ProductAtLeast(n - 1, a, w);
    assert n * w == (n - 1) * w + w;
  }

  lemma SmallRemainder(k: nat, m: nat)
    requires k < m
    ensures k % m == k
  {
  }

  lemma QuotientBound(t: nat, n: nat, w: nat)
    requires w > 0 && t < n * w
    ensures t / w < n && t == t / w * w + t % w
  {
    if t / w >= n {
      ProductAtLeast(t / w, n, w);
    }
  }

  /** The sum of the first m weights. */
  ghost function Tally(w: seq<nat>, m: nat): nat
    requires m <= |w|
  {
    if m == 0 then 0 else Tally(w, m - 1) + w[m - 1]
  }

  lemma {:induction false} NothingTallied(w: seq<nat>, m: nat)
    requires m <= |w| && forall b :: 0 <= b < |w| ==> w[b] == 0
    ensures Tally(w, m) == 0
  {
    if m > 0 {
      NothingTallied(w, m - 1);
    }
  }

  lemma {:induction false} TallyUpdate(w: seq<nat>, b: nat, v: nat, m: nat)
    requires b < |w| && m <= |w|
    ensures Tally(w[b := v], m) == if b < m then Tally(w, m) - w[b] + v else Tally(w, m)
  {
    if m > 0 {
      TallyUpdate(w, b, v, m - 1);
    }
  }
}
