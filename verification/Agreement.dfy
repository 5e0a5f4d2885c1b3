/** Annotator agreement and cost matrix (agent/calibration.py).

    Frequencies and kappa are exact rationals (`real`), and so is the rounding of the reported figures
    to six digits, ties to even. */
module Agreement {
  import opened Options

  datatype Route = Auto | Human

  /** A label after normalisation; `None` when the text is neither auto nor human. */
  type Norm<!V> = V -> Option<Route>
  type Item<V> = map<string, V>

  /** The four cells of the two-by-two table: first letter is the first label. */
  datatype Cells = Cells(aa: nat, ah: nat, ha: nat, hh: nat) {
    function Total(): nat { aa + ah + ha + hh }
    function Agree(): nat { aa + hh }
    function FirstAuto(): nat { aa + ah }
    function SecondAuto(): nat { aa + ha }
    function Swapped(): Cells { Cells(aa, ha, ah, hh) }
    function Plus(p: (Route, Route)): Cells {
      match p
      case (Auto, Auto) => this.(aa := aa + 1)
      case (Auto, Human) => this.(ah := ah + 1)
      case (Human, Auto) => this.(ha := ha + 1)
      case (Human, Human) => this.(hh := hh + 1)
    }
  }

  function Label<V>(item: Item<V>, key: string, norm: Norm<V>): Option<Route> {
    if key in item then norm(item[key]) else None
  }

  predicate Labelled<V>(item: Item<V>, first: string, second: string, norm: Norm<V>) {
    Label(item, first, norm).Some? && Label(item, second, norm).Some?
  }

  function PairOf<V>(item: Item<V>, first: string, second: string, norm: Norm<V>): (Route, Route)
    requires Labelled(item, first, second, norm)
  {
    (Label(item, first, norm).value, Label(item, second, norm).value)
  }

  /** The table of a whole label set: the reference both loops are measured against. */
  function Tally<V>(items: seq<Item<V>>, first: string, second: string, norm: Norm<V>): Cells {
    if items == [] then Cells(0, 0, 0, 0)
    else
      var rest := Tally(items[..|items| - 1], first, second, norm);
      var item := items[|items| - 1];
      if Labelled(item, first, second, norm) then rest.Plus(PairOf(item, first, second, norm)) else rest
  }

  function Skipped<V>(items: seq<Item<V>>, first: string, second: string, norm: Norm<V>): nat {
    if items == [] then 0
    else
      Skipped(items[..|items| - 1], first, second, norm)
      + (if Labelled(items[|items| - 1], first, second, norm) then 0 else 1)
  }

  // ----- Cohen's kappa as the code computes it -----

  function Abs(x: real): real { if x < 0.0 then -x else x }

  function Frequency(count: nat, n: nat): real
    requires n > 0
  {
    count as real / n as real
  }

  function Chance(paAuto: real, pbAuto: real, paHuman: real, pbHuman: real): real {
    paAuto * pbAuto + paHuman * pbHuman
  }

  /** Expected agreement so close to 1 that the code does not divide. */
  predicate NearOne(pe: real) { Abs(1.0 - pe) < 0.000000000001 }

  function KappaOf(raw: real, pe: real): real {
    if NearOne(pe) then
      if raw == 1.0 then 1.0 else 0.0
    else
      (raw - pe) / (1.0 - pe)
  }

  function RawAgreement(c: Cells): real
    requires c.Total() > 0
  {
    Frequency(c.Agree(), c.Total())
  }

  function ExpectedAgreement(c: Cells): real
    requires c.Total() > 0
  {
    var n := c.Total();
    Chance(Frequency(c.FirstAuto(), n), Frequency(c.SecondAuto(), n),
           Frequency(n - c.FirstAuto(), n), Frequency(n - c.SecondAuto(), n))
  }

  predicate Degenerate(c: Cells)
    requires c.Total() > 0
  {
    NearOne(ExpectedAgreement(c))
  }

  function Kappa(c: Cells): real
    requires c.Total() > 0
  {
    KappaOf(RawAgreement(c), ExpectedAgreement(c))
  }

  // ----- Integer form: the chance-corrected numerator and denominator -----

  /** n * n * (1 - expected agreement). */
  function Disagreeable(c: Cells): nat {
    (c.aa + c.ah) * (c.ah + c.hh) + (c.ha + c.hh) * (c.aa + c.ha)
  }

  /** n * n * (raw - expected) / 2. */
  function Determinant(c: Cells): int {
    c.aa * c.hh - c.ah * c.ha
  }

  lemma Cleared(n: real, x: real)
    requires n > 0.0
    ensures (x / n) * n == x
  {
  }

  lemma ClearedProduct(n: real, x: real, y: real)
    requires n > 0.0
    ensures (x / n) * (y / n) * (n * n) == x * y
  {
    var p, q := x / n, y / n;
    Cleared(n, x);
    Cleared(n, y);
    assert p * q * (n * n) == (p * n) * (q * n);
  }

  /** Polynomial identities behind the integer form. */
  lemma TableIdentities(a: int, b: int, d: int, e: int)
    ensures var n := a + b + d + e;
            && n * n - ((a + b) * (a + d) + (d + e) * (b + e)) == (a + b) * (b + e) + (d + e) * (a + d)
            && (a + e) * n - ((a + b) * (a + d) + (d + e) * (b + e)) == 2 * (a * e - b * d)
  {
  }

  /** Expected agreement with its denominator cleared. */
  lemma ScaledExpected(c: Cells)
    requires c.Total() > 0
    ensures var n := c.Total() as real;
            ExpectedAgreement(c) * (n * n)
            == (c.FirstAuto() * c.SecondAuto() + (c.Total() - c.FirstAuto()) * (c.Total() - c.SecondAuto())) as real
  {
    var n := c.Total() as real;
    var fa, sa := c.FirstAuto() as real, c.SecondAuto() as real;
    var fh, sh := (c.Total() - c.FirstAuto()) as real, (c.Total() - c.SecondAuto()) as real;
    var x, y := (fa / n) * (sa / n), (fh / n) * (sh / n);
    ClearedProduct(n, fa, sa);
    ClearedProduct(n, fh, sh);
    assert (x + y) * (n * n) == x * (n * n) + y * (n * n);
  }

  lemma ScaledRaw(c: Cells)
    requires c.Total() > 0
    ensures var n := c.Total() as real; RawAgreement(c) * (n * n) == (c.Agree() * c.Total()) as real
  {
    var n := c.Total() as real;
    Cleared(n, c.Agree() as real);
    var raw := RawAgreement(c);
    assert raw * (n * n) == (raw * n) * n;
  }

  /** Both differences in the kappa formula, cleared of denominators. */
  lemma Scaled(c: Cells)
    requires c.Total() > 0
    ensures var n := c.Total() as real;
            && n * n > 0.0
            && (1.0 - ExpectedAgreement(c)) * (n * n) == Disagreeable(c) as real
            && (RawAgreement(c) - ExpectedAgreement(c)) * (n * n) == (2 * Determinant(c)) as real
  {
    ScaledExpected(c);
    ScaledRaw(c);
    TableIdentities(c.aa, c.ah, c.ha, c.hh);
    var n := c.Total() as real;
    Subtract(1.0, ExpectedAgreement(c), n * n);
    Subtract(RawAgreement(c), ExpectedAgreement(c), n * n);
  }

  lemma Subtract(x: real, y: real, z: real)
    ensures (x - y) * z == x * z - y * z
  {
  }

  lemma Ratio(num: real, den: real, scale: real)
    requires den != 0.0 && scale > 0.0
    ensures den * scale != 0.0
    ensures (num / den) * (den * scale) == num * scale
  {
    var q := num / den;
    assert q * den == num;
    assert q * (den * scale) == (q * den) * scale;
  }

  /** Away from the degenerate branch kappa is twice the determinant over the scaled disagreement. */
  lemma KappaRatio(c: Cells)
    requires c.Total() > 0 && !Degenerate(c)
    ensures Disagreeable(c) > 0
    ensures Kappa(c) * Disagreeable(c) as real == (2 * Determinant(c)) as real
  {
    Scaled(c);
    var n := c.Total() as real;
    Ratio(RawAgreement(c) - ExpectedAgreement(c), 1.0 - ExpectedAgreement(c), n * n);
  }

  /** The two gaps between the numerator and the bounds -1 and 1. */
  lemma DeterminantBounds(c: Cells)
    ensures 2 * Determinant(c) + Disagreeable(c)
         == 4 * (c.aa * c.hh) + (c.ah - c.ha) * (c.ah - c.ha) + c.Agree() * (c.ah + c.ha)
    ensures Disagreeable(c) - 2 * Determinant(c) == c.Total() * (c.ah + c.ha)
  {
  }

  lemma NonNegative(x: nat, y: nat, z: int)
    ensures x * y >= 0 && z * z >= 0 && (z * z == 0 <==> z == 0) && (x * y == 0 <==> x == 0 || y == 0)
  {
    if z > 0 { assert z * z >= z; } else if z < 0 { assert z * z >= -z; }
    if x > 0 && y > 0 { assert x * y >= x; }
  }

  /** A quotient compared with plus or minus one, by its numerator. */
  lemma Compare(k: real, d: real, m: real)
    requires d > 0.0 && k * d == m
    ensures m <= d <==> k <= 1.0
    ensures m == d <==> k == 1.0
    ensures -d <= m <==> -1.0 <= k
    ensures m == -d <==> k == -1.0
  {
    Subtract(k, 1.0, d);
    Subtract(k, -1.0, d);
    if k > 1.0 { assert (k - 1.0) * d > 0.0; }
    if k < 1.0 { assert (1.0 - k) * d > 0.0; }
    if k > -1.0 { assert (k + 1.0) * d > 0.0; }
    if k < -1.0 { assert (-1.0 - k) * d > 0.0; }
  }

  /** The reported rate counts exactly the two diagonal cells of the cost matrix. */
  lemma RawRateIsDiagonal(c: Cells)
    requires c.Total() > 0
    ensures RawAgreement(c) * c.Total() as real == (c.aa + c.hh) as real
  {
    Cleared(c.Total() as real, c.Agree() as real);
  }

  lemma RawOneIffNoDisagreement(c: Cells)
    requires c.Total() > 0
    ensures RawAgreement(c) == 1.0 <==> c.ah == 0 && c.ha == 0
  {
    Cleared(c.Total() as real, c.Agree() as real);
    Compare(RawAgreement(c), c.Total() as real, c.Agree() as real);
  }

  lemma KappaBounds(c: Cells)
    requires c.Total() > 0
    ensures -1.0 <= Kappa(c) <= 1.0
  {
    if !Degenerate(c) {
      KappaRatio(c);
      DeterminantBounds(c);
      NonNegative(c.aa, c.hh, c.ah - c.ha);
      NonNegative(c.Agree(), c.ah + c.ha, 0);
      NonNegative(c.Total(), c.ah + c.ha, 0);
      Compare(Kappa(c), Disagreeable(c) as real, (2 * Determinant(c)) as real);
    }
  }

  /** Kappa is exactly 1 when no pair disagrees, and only then. */
  lemma KappaOneIffAllAgree(c: Cells)
    requires c.Total() > 0
    ensures Kappa(c) == 1.0 <==> c.ah == 0 && c.ha == 0
  {
    RawOneIffNoDisagreement(c);
    if !Degenerate(c) {
      KappaRatio(c);
      DeterminantBounds(c);
      NonNegative(c.Total(), c.ah + c.ha, 0);
      Compare(Kappa(c), Disagreeable(c) as real, (2 * Determinant(c)) as real);
    }
  }

  /** The lower bound is reached exactly by total disagreement split evenly. */
  lemma KappaMinusOneIff(c: Cells)
    requires c.Total() > 0
    ensures Kappa(c) == -1.0 <==> c.aa == 0 && c.hh == 0 && c.ah == c.ha
  {
    if Degenerate(c) {
      if c.aa == 0 && c.hh == 0 && c.ah == c.ha {
        EvenSplit(c);
        assert false;
      }
    } else {
      KappaRatio(c);
      Compare(Kappa(c), Disagreeable(c) as real, (2 * Determinant(c)) as real);
      TouchesMinusOne(c);
    }
  }

  lemma TouchesMinusOne(c: Cells)
    requires Disagreeable(c) > 0
    ensures 2 * Determinant(c) + Disagreeable(c) == 0 <==> c.aa == 0 && c.hh == 0 && c.ah == c.ha
  {
    DeterminantBounds(c);
    NonNegative(c.aa, c.hh, c.ah - c.ha);
    NonNegative(c.Agree(), c.ah + c.ha, 0);
  }

  lemma EvenSplit(c: Cells)
    requires c.Total() > 0 && c.aa == 0 && c.hh == 0 && c.ah == c.ha
    ensures !Degenerate(c)
  {
    assert 2 * Disagreeable(c) == c.Total() * c.Total();
    WideIsNotDegenerate(c);
  }

  /** At an expected agreement of a half or less the code divides. */
  lemma WideIsNotDegenerate(c: Cells)
    requires c.Total() > 0 && c.Total() * c.Total() <= 2 * Disagreeable(c)
    ensures !Degenerate(c)
  {
    Scaled(c);
    AtLeastHalf(1.0 - ExpectedAgreement(c), c.Total(), Disagreeable(c));
  }

  lemma SquareAsReal(n: nat)
    ensures n as real * n as real == (n * n) as real
  {
  }

  lemma AtLeastHalf(gap: real, n: nat, d: nat)
    requires n > 0 && gap * (n as real * n as real) == d as real && n * n <= 2 * d
    ensures gap >= 0.5
  {
    SquareAsReal(n);
    Half(gap, (n * n) as real, d as real);
  }

  lemma Half(gap: real, scale: real, d: real)
    requires scale > 0.0 && gap * scale == d && scale <= 2.0 * d
    ensures gap >= 0.5
  {
    Subtract(gap, 0.5, scale);
    if gap < 0.5 { NegativeProduct(gap - 0.5, scale); }
  }

  lemma NegativeProduct(x: real, d: real)
    requires x < 0.0 && d > 0.0
    ensures x * d < 0.0
  {
  }

  /** Swapping the annotators changes nothing. */
  lemma KappaSymmetric(c: Cells)
    requires c.Total() > 0
    ensures Kappa(c) == Kappa(c.Swapped()) && RawAgreement(c) == RawAgreement(c.Swapped())
  {
    var n := c.Total() as real;
    Commute(c.FirstAuto() as real / n, c.SecondAuto() as real / n);
    Commute((c.Total() - c.FirstAuto()) as real / n, (c.Total() - c.SecondAuto()) as real / n);
    assert ExpectedAgreement(c) == ExpectedAgreement(c.Swapped());
  }

  lemma Commute(x: real, y: real)
    ensures x * y == y * x
  {
  }

  /** The degenerate branch at exactly 1 never hides a disagreement. */
  lemma ExpectedOneForcesRawOne(c: Cells)
    requires c.Total() > 0 && ExpectedAgreement(c) == 1.0
    ensures RawAgreement(c) == 1.0 && Kappa(c) == 1.0
  {
    Scaled(c);
    assert Disagreeable(c) == 0;
    NonNegative(c.aa + c.ah, c.ah + c.hh, 0);
    NonNegative(c.ha + c.hh, c.aa + c.ha, 0);
    RawOneIffNoDisagreement(c);
  }

  // ----- Reported figures -----

  function RoundHalfEven(x: real): int {
    var f := x.Floor;
    if x - f as real < 0.5 then f else if x - f as real > 0.5 then f + 1 else if f % 2 == 0 then f else f + 1
  }

  /** `round(x, 6)`. */
  function Round6(x: real): real { RoundHalfEven(x * 1000000.0) as real / 1000000.0 }

  lemma RoundsTo(x: real, k: int)
    ensures RoundHalfEven(x) >= k <==> x > k as real - 0.5 || (x == k as real - 0.5 && k % 2 == 0)
  {
    var f := x.Floor;
    if k <= f {
      assert k as real <= f as real;
    } else if k == f + 1 {
      assert k as real == f as real + 1.0;
    } else {
      assert k as real >= f as real + 2.0;
    }
  }

  /** A rounded figure clears a floor of at most six digits exactly when the figure itself is less than
      half a step below it, or half a step below an even one. */
  lemma ClearsFloorIff(x: real, k: int)
    ensures var floor := k as real / 1000000.0;
            Round6(x) >= floor <==> x > floor - 0.0000005 || (x == floor - 0.0000005 && k % 2 == 0)
  {
    RoundsTo(x * 1000000.0, k);
  }

  lemma ReportedWithin(x: real)
    ensures -1.0 <= x <= 1.0 ==> -1.0 <= Round6(x) <= 1.0
    ensures x <= 1.0 ==> (Round6(x) == 1.0 <==> x >= 0.9999995)
    ensures x == 1.0 ==> Round6(x) == 1.0
  {
    ClearsFloorIff(x, -1000000);
    ClearsFloorIff(x, 1000000);
    ClearsFloorIff(x, 1000001);
  }

  lemma ReportedKappaBounds(c: Cells)
    requires c.Total() > 0
    ensures -1.0 <= Round6(Kappa(c)) <= 1.0
  {
    KappaBounds(c);
    ReportedWithin(Kappa(c));
  }

  // ----- When a reported kappa of 1 hides a disagreement -----

  /** A factor compared with a bound through its product. */
  lemma AtLeastIff(k: real, d: real, m: real, bound: real)
    requires d > 0.0 && k * d == m
    ensures k >= bound <==> bound * d <= m
  {
    Subtract(k, bound, d);
    if k < bound {
      NegativeProduct(k - bound, d);
    }
  }

  lemma GapIsDisagreement(c: Cells)
    ensures Disagreeable(c) - 2 * Determinant(c) == c.Total() * (c.ah + c.ha)
  {
    DeterminantBounds(c);
  }

  lemma RoundedRatioIff(c: Cells, k: real)
    requires k <= 1.0 && Disagreeable(c) > 0 && k * Disagreeable(c) as real == (2 * Determinant(c)) as real
    ensures Round6(k) == 1.0 <==> 2000000 * (c.Total() * (c.ah + c.ha)) <= Disagreeable(c)
  {
    GapIsDisagreement(c);
    RoundsWithGap(k, Disagreeable(c), 2 * Determinant(c), c.Total() * (c.ah + c.ha));
  }

  lemma RoundsWithGap(k: real, d: nat, m: int, gap: nat)
    requires k <= 1.0 && d > 0 && k * d as real == m as real && d - m == gap
    ensures Round6(k) == 1.0 <==> 2000000 * gap <= d
  {
    ReportedWithin(k);
    OneAsIntegers(k, d, m, gap);
  }

  /** Kappa rounds to 1 exactly when the disagreement is at most a two-millionth of what it is measured
      against. */
  lemma RoundsToOneIff(c: Cells)
    requires c.Total() > 0 && !Degenerate(c)
    ensures Round6(Kappa(c)) == 1.0 <==> 2000000 * (c.Total() * (c.ah + c.ha)) <= Disagreeable(c)
  {
    KappaBounds(c);
    KappaRatio(c);
    RoundedRatioIff(c, Kappa(c));
  }

  lemma OneAsIntegers(k: real, d: nat, m: int, gap: nat)
    requires d > 0 && k * d as real == m as real && d - m == gap
    ensures k >= 0.9999995 <==> 2000000 * gap <= d
  {
    AtLeastIff(k, d as real, m as real, 0.9999995);
    assert m as real == d as real - gap as real;
  }

  /** The reported kappa of a table is 1 exactly when no pair disagrees, or the formula divides and the
      disagreement is too small to show. */
  lemma ReportedOneIff(c: Cells)
    requires c.Total() > 0
    ensures var n, d := c.Total(), c.ah + c.ha;
            Round6(Kappa(c)) == 1.0
            <==> d == 0 || (!Degenerate(c) && 2000000 * (n * d) <= Disagreeable(c))
  {
    KappaOneIffAllAgree(c);
    ReportedWithin(1.0);
    if Degenerate(c) {
      KappaInDegenerate(c);
      ReportedWithin(0.0);
    } else {
      RoundsToOneIff(c);
    }
  }

  lemma KappaInDegenerate(c: Cells)
    requires c.Total() > 0 && Degenerate(c)
    ensures Kappa(c) == 0.0 || Kappa(c) == 1.0
  {
  }

  /** With n pairs of which d disagree, the scaled disagreement is largest for an even split. */
  lemma DisagreeableBound(c: Cells)
    ensures var n, d := c.Total(), c.ah + c.ha; 2 * Disagreeable(c) <= n * n + d * d
  {
    EvenSplitIsLargest(c.aa, c.ah, c.ha, c.hh);
    NonNegative(c.ah, c.ha, c.aa - c.hh);
  }

  lemma EvenSplitIsLargest(a: int, b: int, d: int, e: int)
    ensures var n := a + b + d + e;
            n * n + (b + d) * (b + d) - 2 * ((a + b) * (b + e) + (d + e) * (a + d)) == (a - e) * (a - e) + 4 * (b * d)
  {
  }

  /** Below four million pairs even one disagreement is too large to round away. */
  lemma ShowsBelowFourMillion(n: nat, d: nat)
    requires 0 < d <= n < 4000000
    ensures n * n + d * d < 4000000 * (n * d)
  {
    Nested(n, d);
    if d < n {
      assert d * (n - d) >= 1;
    } else {
      assert n * n == d * d == n * d;
      assert n * n >= 1;
    }
  }

  lemma Nested(n: nat, d: nat)
    requires 0 < d <= n < 4000000
    ensures n * n <= 3999999 * (n * d) && d * d <= n * d
    ensures d < n ==> d * d < n * d
  {
    TimesAtMost(n, 3999999, n);
    TimesAtMost(1, d, n);
    TimesAtMost(d, n, d);
    if d < n { TimesAtMost(d + 1, n, d); }
  }

  lemma TimesAtMost(x: nat, y: nat, z: nat)
    requires x <= y
    ensures x * z <= y * z
  {
  }

  predicate Agreeing(c: Cells) { c.ah == 0 && c.ha == 0 }

  lemma ReportedOneShows(c: Cells)
    requires 0 < c.Total() < 4000000
    ensures Round6(Kappa(c)) == 1.0 ==> Agreeing(c)
  {
    ReportedOneIff(c);
    DisagreeableBound(c);
    if c.ah + c.ha > 0 { ShowsBelowFourMillion(c.Total(), c.ah + c.ha); }
  }

  /** One disagreement among n pairs that otherwise split evenly. */
  function OneOdd(n: nat): Cells
    requires n >= 2
  {
    Cells(n / 2, 1, 0, n - 1 - n / 2)
  }

  lemma EvenIsWide(m: nat)
    ensures (2 * m) * (2 * m) == 2 * ((m + 1) * m + (m - 1) * m)
  {
  }

  lemma OddIsWide(m: nat)
    ensures (2 * m + 1) * (2 * m + 1) + 1 == 2 * ((m + 1) * (m + 1) + m * m)
  {
  }

  lemma OneOddIsWide(n: nat)
    requires n >= 2
    ensures OneOdd(n).Total() == n && n * n <= 2 * Disagreeable(OneOdd(n))
  {
    var m := n / 2;
    if n % 2 == 0 {
      EvenIsWide(m);
      assert n == 2 * m && OneOdd(n) == Cells(m, 1, 0, m - 1);
    } else {
      OddIsWide(m);
      assert n == 2 * m + 1 && OneOdd(n) == Cells(m, 1, 0, m);
    }
  }

  lemma OneOddHides(n: nat)
    requires n >= 4000000
    ensures Round6(Kappa(OneOdd(n))) == 1.0 && OneOdd(n).ah == 1
  {
    OneOddIsWide(n);
    WideIsNotDegenerate(OneOdd(n));
    TimesAtMost(4000000, n, n);
    ReportedOneIff(OneOdd(n));
  }

  /** For label sets of one size a reported kappa of 1 means that no pair disagrees exactly when the
      size is below four million. */
  lemma ReportedOneMeansAgreementIff(n: nat)
    requires n > 0
    ensures (forall c: Cells :: c.Total() == n && Round6(Kappa(c)) == 1.0 ==> Agreeing(c)) <==> n < 4000000
  {
    if n < 4000000 {
      forall c: Cells | c.Total() == n && Round6(Kappa(c)) == 1.0 ensures Agreeing(c) { ReportedOneShows(c); }
    } else {
      OneOddIsWide(n);
      OneOddHides(n);
      assert !Agreeing(OneOdd(n));
    }
  }

  // ----- Relations between the two reports -----

  /** With the same two keys the labelled pairs are the items not skipped, and reading the keys in
      the other order transposes the table. */
  lemma {:induction false} TallyCounts<V>(items: seq<Item<V>>, first: string, second: string, norm: Norm<V>)
    ensures Tally(items, first, second, norm).Total() + Skipped(items, first, second, norm) == |items|
    ensures Tally(items, second, first, norm) == Tally(items, first, second, norm).Swapped()
  {
    if items != [] {
      TallyCounts(items[..|items| - 1], first, second, norm);
    }
  }

  predicate Reads<V>(item: Item<V>, key: string, norm: Norm<V>, r: Route) { key in item && norm(item[key]) == Some(r) }

  predicate ReadsBoth<V>(item: Item<V>, first: string, second: string, norm: Norm<V>, a: Route, b: Route) {
    Reads(item, first, norm, a) && Reads(item, second, norm, b)
  }

  /** The positions of the items whose two labels are `a` and `b`. */
  function At<V>(items: seq<Item<V>>, first: string, second: string, norm: Norm<V>, a: Route, b: Route): set<nat> {
    set k: nat | k < |items| && ReadsBoth(items[k], first, second, norm, a, b)
  }

  lemma AtStep<V>(items: seq<Item<V>>, first: string, second: string, norm: Norm<V>, a: Route, b: Route)
    requires items != []
    ensures var n := |items| - 1;
            |At(items, first, second, norm, a, b)|
            == |At(items[..n], first, second, norm, a, b)|
               + (if ReadsBoth(items[n], first, second, norm, a, b) then 1 else 0)
  {
    var n := |items| - 1;
    var all, before := At(items, first, second, norm, a, b), At(items[..n], first, second, norm, a, b);
    forall k: nat ensures k in before <==> k in all && k != n {
      if k < n { assert items[..n][k] == items[k]; }
    }
    assert n !in before;
    if n in all {
      assert all == before + {n};
    } else {
      assert all == before;
    }
  }

  /** Each cell counts the items that carry exactly its own two labels, the first one first. */
  lemma {:induction false} CellsCount<V>(items: seq<Item<V>>, first: string, second: string, norm: Norm<V>)
    ensures var c := Tally(items, first, second, norm);
            && c.aa == |At(items, first, second, norm, Auto, Auto)|
            && c.ah == |At(items, first, second, norm, Auto, Human)|
            && c.ha == |At(items, first, second, norm, Human, Auto)|
            && c.hh == |At(items, first, second, norm, Human, Human)|
  {
    if items != [] {
      CellsCount(items[..|items| - 1], first, second, norm);
      AtStep(items, first, second, norm, Auto, Auto);
      AtStep(items, first, second, norm, Auto, Human);
      AtStep(items, first, second, norm, Human, Auto);
      AtStep(items, first, second, norm, Human, Human);
    }
  }

  // ----- The loops -----

  datatype AgreementReport = AgreementReport(
    nItems: nat, nDoubleLabelled: nat, rawAgreement: Option<real>, cohensKappa: Option<real>)

  datatype CostMatrix = CostMatrix(
    autoWhenAuto: nat, humanWhenHuman: nat, autoWhenHuman: nat, humanWhenAuto: nat, skipped: nat)

  function CountFirst(pairs: seq<(Route, Route)>, r: Route): nat {
    if pairs == [] then 0 else CountFirst(pairs[..|pairs| - 1], r) + (if pairs[|pairs| - 1].0 == r then 1 else 0)
  }

  function CountSecond(pairs: seq<(Route, Route)>, r: Route): nat {
    if pairs == [] then 0 else CountSecond(pairs[..|pairs| - 1], r) + (if pairs[|pairs| - 1].1 == r then 1 else 0)
  }

  function CountEqual(pairs: seq<(Route, Route)>): nat {
    if pairs == [] then 0
    else CountEqual(pairs[..|pairs| - 1]) + (if pairs[|pairs| - 1].0 == pairs[|pairs| - 1].1 then 1 else 0)
  }

  lemma Extend(pairs: seq<(Route, Route)>, p: (Route, Route), r: Route)
    ensures CountFirst(pairs + [p], r) == CountFirst(pairs, r) + (if p.0 == r then 1 else 0)
    ensures CountSecond(pairs + [p], r) == CountSecond(pairs, r) + (if p.1 == r then 1 else 0)
    ensures CountEqual(pairs + [p]) == CountEqual(pairs) + (if p.0 == p.1 then 1 else 0)
  {
    assert (pairs + [p])[..|pairs|] == pairs;
  }

  /** The three kinds of marginal count the code takes are the margins of the table. */
  ghost predicate Margins(pairs: seq<(Route, Route)>, c: Cells) {
    && |pairs| == c.Total()
    && CountEqual(pairs) == c.Agree()
    && CountFirst(pairs, Auto) == c.FirstAuto() && CountFirst(pairs, Human) == c.Total() - c.FirstAuto()
    && CountSecond(pairs, Auto) == c.SecondAuto() && CountSecond(pairs, Human) == c.Total() - c.SecondAuto()
  }

  /** Both figures, computed from the pair list by counting margins. */
  method Statistics(pairs: seq<(Route, Route)>, ghost cells: Cells) returns (raw: real, kappa: real)
    requires pairs != [] && Margins(pairs, cells)
    ensures raw == RawAgreement(cells) && kappa == Kappa(cells)
  {
    var n := |pairs|;
    raw := Frequency(CountEqual(pairs), n);
    var pe := Chance(Frequency(CountFirst(pairs, Auto), n), Frequency(CountSecond(pairs, Auto), n),
                     Frequency(CountFirst(pairs, Human), n), Frequency(CountSecond(pairs, Human), n));
    kappa := KappaOf(raw, pe);
  }

  lemma MarginsExtend(pairs: seq<(Route, Route)>, p: (Route, Route), c: Cells)
    requires Margins(pairs, c)
    ensures Margins(pairs + [p], c.Plus(p))
  {
    Extend(pairs, p, Auto);
    Extend(pairs, p, Human);
  }

  lemma TallyStep<V>(items: seq<Item<V>>, i: nat, first: string, second: string, norm: Norm<V>)
    requires i < |items|
    ensures Tally(items[..i + 1], first, second, norm)
         == if Labelled(items[i], first, second, norm)
            then Tally(items[..i], first, second, norm).Plus(PairOf(items[i], first, second, norm))
            else Tally(items[..i], first, second, norm)
  {
    assert items[..i + 1][..i] == items[..i];
  }

  /** The pairs carrying both labels, whose margins are those of the table. */
  method CollectPairs<V>(items: seq<Item<V>>, first: string, second: string, norm: Norm<V>)
    returns (pairs: seq<(Route, Route)>)
    ensures Margins(pairs, Tally(items, first, second, norm))
  {
    pairs := [];
    ghost var cells := Tally(items[..0], first, second, norm);
    for i := 0 to |items|
      invariant cells == Tally(items[..i], first, second, norm)
      invariant Margins(pairs, cells)
    {
      TallyStep(items, i, first, second, norm);
      var a, b := Label(items[i], first, norm), Label(items[i], second, norm);
      if a.Some? && b.Some? {
        MarginsExtend(pairs, (a.value, b.value), cells);
        pairs := pairs + [(a.value, b.value)];
        cells := cells.Plus((a.value, b.value));
      }
    }
    assert items[..|items|] == items;
  }

  /** The report is a function of the table alone; an empty table leaves both figures unset. */
  method ComputeAgreementReport<V>(items: seq<Item<V>>, first: string, second: string, norm: Norm<V>)
    returns (report: AgreementReport)
    ensures var c := Tally(items, first, second, norm);
            && report.nItems == |items|
            && report.nDoubleLabelled == c.Total()
            && (c.Total() == 0 ==> report.rawAgreement == None && report.cohensKappa == None)
            && (c.Total() > 0 ==>
                  report.rawAgreement == Some(Round6(RawAgreement(c))) && report.cohensKappa == Some(Round6(Kappa(c))))
  {
    var pairs := CollectPairs(items, first, second, norm);
    if pairs == [] {
      report := AgreementReport(|items|, 0, None, None);
    } else {
      var raw, kappa := Statistics(pairs, Tally(items, first, second, norm));
      report := AgreementReport(|items|, |pairs|, Some(Round6(raw)), Some(Round6(kappa)));
    }
  }

  /** Every item lands in exactly one of the five counters. */
  method ComputeCostMatrix<V>(items: seq<Item<V>>, predicted: string, gold: string, norm: Norm<V>)
    returns (m: CostMatrix)
    ensures var c := Tally(items, predicted, gold, norm);
            m == CostMatrix(c.aa, c.hh, c.ah, c.ha, Skipped(items, predicted, gold, norm))
    ensures m.autoWhenAuto + m.humanWhenHuman + m.autoWhenHuman + m.humanWhenAuto + m.skipped == |items|
    ensures m.autoWhenAuto == |At(items, predicted, gold, norm, Auto, Auto)|
    ensures m.humanWhenHuman == |At(items, predicted, gold, norm, Human, Human)|
    ensures m.autoWhenHuman == |At(items, predicted, gold, norm, Auto, Human)|
    ensures m.humanWhenAuto == |At(items, predicted, gold, norm, Human, Auto)|
  {
    m := CostMatrix(0, 0, 0, 0, 0);
    for i := 0 to |items|
      invariant var c := Tally(items[..i], predicted, gold, norm);
                m == CostMatrix(c.aa, c.hh, c.ah, c.ha, Skipped(items[..i], predicted, gold, norm))
    {
      assert items[..i + 1][..i] == items[..i];
      var pred, g := Label(items[i], predicted, norm), Label(items[i], gold, norm);
      if pred == None || g == None {
        m := m.(skipped := m.skipped + 1);
      } else if pred.value == Auto && g.value == Auto {
        m := m.(autoWhenAuto := m.autoWhenAuto + 1);
      } else if pred.value == Human && g.value == Human {
        m := m.(humanWhenHuman := m.humanWhenHuman + 1);
      } else if pred.value == Auto {
        m := m.(autoWhenHuman := m.autoWhenHuman + 1);
      } else {
        m := m.(humanWhenAuto := m.humanWhenAuto + 1);
      }
    }
    assert items[..|items|] == items;
    TallyCounts(items, predicted, gold, norm);
    CellsCount(items, predicted, gold, norm);
  }

  // ----- Kappa in counts -----

  lemma BelowIff(x: real, scale: real, d: real, bound: real)
    requires scale > 0.0 && x * scale == d
    ensures x < bound <==> d < bound * scale
    ensures d >= 0.0 ==> x >= 0.0
  {
    Subtract(x, bound, scale);
    if x < bound { assert (x - bound) * scale < 0.0; }
    if x > bound { assert (x - bound) * scale > 0.0; }
    if x < 0.0 { assert x * scale < 0.0; }
  }

  lemma TrillionthIff(d: nat, nn: nat)
    ensures d as real < 0.000000000001 * nn as real <==> 1000000000000 * d < nn
  {
    assert (1000000000000 * d) as real == 1000000000000.0 * d as real;
  }

  /** The code does not divide when chance alone leaves less than a trillionth of all pairs of pairs to
      disagree. */
  lemma DegenerateIff(c: Cells)
    requires c.Total() > 0
    ensures Degenerate(c) <==> 1000000000000 * Disagreeable(c) < c.Total() * c.Total()
  {
    Scaled(c);
    SquareAsReal(c.Total());
    var nn, d := c.Total() * c.Total(), Disagreeable(c);
    BelowIff(1.0 - ExpectedAgreement(c), nn as real, d as real, 0.000000000001);
    TrillionthIff(d, nn);
  }

  lemma InCounts(c: Cells)
    ensures var n, o := c.aa + c.ah + c.ha + c.hh, c.aa + c.hh;
            var e := (c.aa + c.ah) * (c.aa + c.ha) + (c.ha + c.hh) * (c.ah + c.hh);
            Disagreeable(c) == n * n - e && 2 * Determinant(c) == n * o - e
  {
    TableIdentities(c.aa, c.ah, c.ha, c.hh);
  }

  /** Kappa from the counts alone: with n pairs, o of them alike and e alike by chance out of n * n, it is
      (n * o - e) / (n * n - e), or whether all are alike where that divisor is a trillionth of n * n. */
  lemma KappaFromCounts(c: Cells)
    requires c.Total() > 0
    ensures var n, o := c.aa + c.ah + c.ha + c.hh, c.aa + c.hh;
            var e := (c.aa + c.ah) * (c.aa + c.ha) + (c.ha + c.hh) * (c.ah + c.hh);
            if 1000000000000 * (n * n - e) < n * n then Kappa(c) == if c.ah == 0 && c.ha == 0 then 1.0 else 0.0
            else n * n - e > 0 && Kappa(c) * (n * n - e) as real == (n * o - e) as real
  {
    InCounts(c);
    if Degenerate(c) {
      RawOneIffNoDisagreement(c);
      assert 1000000000000 * Disagreeable(c) < c.Total() * c.Total() by { DegenerateIff(c); }
    } else {
      KappaRatio(c);
      assert 1000000000000 * Disagreeable(c) >= c.Total() * c.Total() by { DegenerateIff(c); }
    }
  }
}
