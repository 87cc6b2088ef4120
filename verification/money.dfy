/** Amount arithmetic of the plan form on exact reals: sums, the cent
    rounding `round2` used by the validator, and the equal split whose last
    part absorbs the remainder. */
module Money {

  function Abs(x: real): (r: real)
    ensures r >= 0.0 && (r == x || r == -x)
  {
    if x < 0.0 then -x else x
  }

  /** `round2(x) = Math.round(x * 100) / 100`: rounds to the nearest cent,
      halves upward (`Math.round` rounds .5 toward +infinity). */
  function Round2(x: real): (r: real)
    ensures IsCents(r)
    ensures -1.0 / 200.0 < r - x <= 1.0 / 200.0
  {
    var m := (100.0 * x + 0.5).Floor;
    assert (100.0 * (m as real / 100.0)).Floor == m;
    m as real / 100.0
  }

  /** `x` is a whole number of cents. */
  predicate IsCents(x: real) {
    (100.0 * x).Floor as real == 100.0 * x
  }

  /** Rounding a whole number of cents leaves it unchanged. */
  lemma Round2OfCents(x: real)
    requires IsCents(x)
    ensures Round2(x) == x
  {
    var m := (100.0 * x).Floor;
    assert (100.0 * x + 0.5).Floor == m;
  }

  /** `n / 100` is a whole number of cents. */
  lemma IntCents(n: int)
    ensures IsCents(n as real / 100.0)
  {
    assert 100.0 * (n as real / 100.0) == n as real;
  }

  /** `n` times `m` cents is `n * m` cents. */
  lemma ScaleCents(n: int, m: int)
    ensures n as real * (m as real / 100.0) == (n * m) as real / 100.0
  {
  }

  /** The number of cents in `x`. */
  function CentsOf(x: real): int {
    (100.0 * x).Floor
  }

  lemma CentsOfCents(x: real)
    requires IsCents(x)
    ensures x == CentsOf(x) as real / 100.0
  {
  }

  /** Adding `p` cents and `q` cents and rounding gives `p + q` cents. */
  lemma AddCents(p: int, q: int)
    ensures Round2(p as real / 100.0 + q as real / 100.0) == (p + q) as real / 100.0
  {
    assert p as real / 100.0 + q as real / 100.0 == (p + q) as real / 100.0;
    IntCents(p + q);
    Round2OfCents((p + q) as real / 100.0);
  }

  /** Whatever lies within half a cent of zero rounds to at most a cent. */
  lemma Round2Small(y: real)
    requires -1.0 / 200.0 < y <= 1.0 / 200.0
    ensures Abs(Round2(y)) <= 0.01
  {
  }

  /** `n` parts of `m` cents each make `n * m` cents. */
  lemma TimesCents(share: real, n: int, m: int)
    requires share == m as real / 100.0
    ensures share * n as real == (n * m) as real / 100.0
  {
    ScaleCents(n, m);
  }

  /** When `n - 1` parts of a whole-cent `share` are followed by a last part
      that absorbs the remainder of `total`, adding the parts rounded to
      cents misses `total` by at most a cent once rounded. */
  lemma AbsorbedSplitWithinTolerance(total: real, share: real, n: nat)
    requires n > 0 && IsCents(share)
    ensures var prefix := share * (n - 1) as real;
            Abs(Round2(Round2(prefix + Round2(total - prefix)) - total)) <= 0.01
  {
    var prefix := share * (n - 1) as real;
    var last := total - prefix;
    var m := CentsOf(share);
    CentsOfCents(share);
    TimesCents(share, n - 1, m);
    var p := (n - 1) * m;
    var m2 := CentsOf(Round2(last));
    CentsOfCents(Round2(last));
    AddCents(p, m2);
    assert prefix + Round2(last) == p as real / 100.0 + m2 as real / 100.0;
    var y := Round2(last) - last;
    assert Round2(prefix + Round2(last)) - total == y;
    Round2Small(y);
  }

  /** Left-to-right sum of a list of amounts (`reduce((s, a) => s + a, 0)`). */
  function SumReals(xs: seq<real>): real {
    if xs == [] then 0.0 else SumReals(xs[..|xs| - 1]) + xs[|xs| - 1]
  }

  /** `k` copies of `c` add up to `k * c`. */
  lemma {:induction false} SumOfCopies(k: nat, c: real)
    ensures SumReals(seq(k, _ => c)) == k as real * c
  {
    if k > 0 {
      var xs := seq(k, _ => c);
      assert xs[..k - 1] == seq(k - 1, _ => c);
      SumOfCopies(k - 1, c);
    }
  }

  /** The `n` amounts of an equal split of `total` with per-part `share`:
      every part but the last is `share`, and the last is
      `total - share * (n - 1)`, so nothing is lost. */
  function SplitAmounts(total: real, share: real, n: nat): (r: seq<real>)
    ensures |r| == n
    ensures forall i :: 0 <= i < n - 1 ==> r[i] == share
    ensures n > 0 ==> r[n - 1] == total - share * (n - 1) as real
    ensures n > 0 ==> SumReals(r) == total
  {
    if n == 0 then []
    else
      var r := seq(n - 1, _ => share) + [total - share * (n - 1) as real];
      assert r[..n - 1] == seq(n - 1, _ => share);
      SumOfCopies(n - 1, share);
      r
  }

  /** The source's per-part share: plain division. */
  function ShareAsWritten(total: real, n: nat): real
    requires n > 0
  {
    total / n as real
  }

  /** The per-part share rounded down to whole cents, so that every part the
      validator rounds is already exact and only the last part carries the
      remainder, which is then at least the unrounded share. */
  function ShareCorrected(total: real, n: nat): (r: real)
    requires n > 0
    ensures IsCents(r)
    ensures total / n as real - 0.01 < r <= total / n as real
    ensures total >= 0.01 * n as real ==> r >= 0.01
  {
    var m := (100.0 * (total / n as real)).Floor;
    assert (100.0 * (m as real / 100.0)).Floor == m;
    m as real / 100.0
  }

  /** With at least one cent per part, every part of the corrected split is
      positive: the shares are whole cents of at least one cent, and the last
      part is at least the unrounded share. */
  lemma CorrectedPartsPositive(total: real, n: nat)
    requires n > 0 && total >= 0.01 * n as real
    ensures forall i :: 0 <= i < n ==> SplitAmounts(total, ShareCorrected(total, n), n)[i] > 0.0
  {
    var q := total / n as real;
    var share := ShareCorrected(total, n);
    var a := SplitAmounts(total, share, n);
    assert q * n as real == total;
    assert share * (n - 1) as real <= q * (n - 1) as real;
    assert a[n - 1] >= q;
  }
}
