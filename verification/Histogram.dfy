/**
 The latency quantile of one app, read off cumulative histogram buckets: sort the buckets by
 upper bound, find the first whose cumulative count reaches `q` times the total, and interpolate
 linearly from the previous non-empty bound. Counts and bounds are exact reals here.
 */
module Histogram {
  /** A bucket bound; `Malformed` is a bound the parser rejects. */
  datatype Label = Finite(le: real) | PlusInf | Malformed(text: string)

  type Buckets = map<Label, real>

  datatype Entry = Entry(bound: Label, cum: real)

  datatype Point = Point(le: real, cum: real)

  // ---------------------------------------------------------------------------------------
  // The listing that sorting produces
  // ---------------------------------------------------------------------------------------

  predicate Below(a: Label, b: Label) {
    a.Finite? && (b.PlusInf? || (b.Finite? && a.le < b.le))
  }

  predicate Ascending(es: seq<Entry>) {
    forall i, j :: 0 <= i < j < |es| ==> Below(es[i].bound, es[j].bound)
  }

  predicate Lists(es: seq<Entry>, buckets: Buckets) {
    && (forall i :: 0 <= i < |es| ==> es[i].bound in buckets && es[i].cum == buckets[es[i].bound])
    && (forall k :: k in buckets && !k.Malformed? ==> Entry(k, buckets[k]) in es)
    && (forall i :: 0 <= i < |es| ==> !es[i].bound.Malformed?)
  }

  predicate SortedListing(es: seq<Entry>, buckets: Buckets) {
    Ascending(es) && Lists(es, buckets)
  }

  lemma {:induction false} SameHead(a: seq<Entry>, b: seq<Entry>)
    requires Ascending(a) && Ascending(b) && a != []
    requires forall e :: e in a <==> e in b
    ensures b != [] && a[0] == b[0]
  {
    assert a[0] in b;
    assert b[0] in a;
  }

  lemma {:induction false} AscendingUnique(a: seq<Entry>, b: seq<Entry>)
    requires Ascending(a) && Ascending(b)
    requires forall e :: e in a <==> e in b
    ensures a == b
  {
    if a == [] {
      if b != [] {
        SameHead(b, a);
      }
    } else {
      SameHead(a, b);
      assert a == [a[0]] + a[1..] && b == [b[0]] + b[1..];
      forall e ensures e in a[1..] <==> e in b[1..] {
        if e == a[0] {
          assert e !in a[1..] && e !in b[1..];
        } else {
          assert e in a[1..] <==> e in a;
          assert e in b[1..] <==> e in b;
        }
      }
      AscendingUnique(a[1..], b[1..]);
    }
  }

  /** One map has one sorted listing, so the order a map is iterated in cannot matter. */
  lemma ListingUnique(a: seq<Entry>, b: seq<Entry>, buckets: Buckets)
    requires SortedListing(a, buckets) && SortedListing(b, buckets)
    ensures a == b
  {
    forall e ensures e in a <==> e in b {
      if e in a {
        assert e == Entry(e.bound, buckets[e.bound]);
      }
      if e in b {
        assert e == Entry(e.bound, buckets[e.bound]);
      }
    }
    AscendingUnique(a, b);
  }

  // ---------------------------------------------------------------------------------------
  // The walk over the finite buckets
  // ---------------------------------------------------------------------------------------

  /** The line from (u0, c0) to (u1, c1), read at height `t`. */
  function Lerp(t: real, c0: real, c1: real, u0: real, u1: real): real
    requires c0 < c1
  {
    u0 + (t - c0) / (c1 - c0) * (u1 - u0)
  }

  /** Where the walk stops: on a bound, or on the line between two corners of the cumulative curve. */
  datatype Spot = On(le: real) | Between(t: real, c0: real, c1: real, u0: real, u1: real)

  function Locate(pts: seq<Point>, target: real, prevUpper: real, prevCum: real): (s: Spot)
    ensures s.Between? ==> s.c0 < s.c1
  {
    if pts == [] then On(prevUpper)
    else if pts[0].cum >= target then
      if pts[0].cum - prevCum <= 0.0 then On(pts[0].le)
      else Between(target, prevCum, pts[0].cum, prevUpper, pts[0].le)
    else Locate(pts[1..], target, if pts[0].cum > 0.0 then pts[0].le else prevUpper, pts[0].cum)
  }

  function Value(s: Spot): real
    requires s.Between? ==> s.c0 < s.c1
  {
    match s
    case On(le) => le
    case Between(t, c0, c1, u0, u1) => Lerp(t, c0, c1, u0, u1)
  }

  function Scan(pts: seq<Point>, target: real, prevUpper: real, prevCum: real): real {
    Value(Locate(pts, target, prevUpper, prevCum))
  }

  /** Bounds strictly increase from `upper` and counts never fall below `cum`. */
  predicate Cumulative(pts: seq<Point>, upper: real, cum: real) {
    pts == [] || (upper < pts[0].le && cum <= pts[0].cum && Cumulative(pts[1..], pts[0].le, pts[0].cum))
  }

  lemma {:induction false} CumulativeFrom(pts: seq<Point>, upper: real, upper': real, cum: real)
    requires Cumulative(pts, upper, cum) && upper' <= upper
    ensures Cumulative(pts, upper', cum)
  {
  }

  lemma MulOrder(a: real, b: real, c: real)
    requires c > 0.0
    ensures a < b <==> a * c < b * c
    ensures a == b <==> a * c == b * c
  {
    assert b * c - a * c == (b - a) * c;
  }

  lemma Fraction(num: real, den: real)
    requires den > 0.0
    ensures num / den * den == num
    ensures 0.0 < num <==> 0.0 < num / den
    ensures num < den <==> num / den < 1.0
    ensures num == den <==> num / den == 1.0
  {
    MulOrder(0.0, num / den, den);
    MulOrder(num / den, 1.0, den);
  }

  lemma LerpBounds(t: real, c0: real, c1: real, u0: real, u1: real)
    requires c0 < t <= c1 && u0 < u1
    ensures u0 < Lerp(t, c0, c1, u0, u1) <= u1
    ensures t == c1 <==> Lerp(t, c0, c1, u0, u1) == u1
  {
    var f := (t - c0) / (c1 - c0);
    Fraction(t - c0, c1 - c0);
    MulOrder(0.0, f, u1 - u0);
    MulOrder(f, 1.0, u1 - u0);
  }

  lemma LerpMonotone(t1: real, t2: real, c0: real, c1: real, u0: real, u1: real)
    requires c0 < c1 && t1 <= t2 && u0 < u1
    ensures Lerp(t1, c0, c1, u0, u1) <= Lerp(t2, c0, c1, u0, u1)
  {
    var f1, f2 := (t1 - c0) / (c1 - c0), (t2 - c0) / (c1 - c0);
    Fraction(t1 - c0, c1 - c0);
    Fraction(t2 - c0, c1 - c0);
    MulOrder(f2, f1, c1 - c0);
    MulOrder(f2, f1, u1 - u0);
  }

  function LastUpper(pts: seq<Point>, upper: real): real {
    if pts == [] then upper else pts[|pts| - 1].le
  }

  lemma {:induction false} LastUpperAbove(pts: seq<Point>, upper: real, cum: real)
    requires Cumulative(pts, upper, cum)
    ensures upper <= LastUpper(pts, upper)
    ensures pts != [] ==> LastUpper(pts, upper) == LastUpper(pts[1..], pts[0].le)
  {
    if pts != [] {
      LastUpperAbove(pts[1..], pts[0].le, pts[0].cum);
    }
  }

  lemma {:induction false} ScanBounds(pts: seq<Point>, t: real, upper: real, cum: real)
    requires Cumulative(pts, upper, cum) && 0.0 <= cum < t
    ensures upper <= Scan(pts, t, upper, cum) <= LastUpper(pts, upper)
  {
    LastUpperAbove(pts, upper, cum);
    if pts != [] {
      LastUpperAbove(pts[1..], pts[0].le, pts[0].cum);
      if pts[0].cum >= t {
        LerpBounds(t, cum, pts[0].cum, upper, pts[0].le);
      } else if pts[0].cum > 0.0 {
        ScanBounds(pts[1..], t, pts[0].le, pts[0].cum);
      } else {
        CumulativeFrom(pts[1..], pts[0].le, upper, pts[0].cum);
        ScanBounds(pts[1..], t, upper, pts[0].cum);
        LastUpperAbove(pts[1..], upper, pts[0].cum);
      }
    }
  }

  lemma {:induction false} ScanMonotone(pts: seq<Point>, t1: real, t2: real, upper: real, cum: real)
    requires Cumulative(pts, upper, cum) && 0.0 <= cum < t1 <= t2
    ensures Scan(pts, t1, upper, cum) <= Scan(pts, t2, upper, cum)
  {
    if pts != [] {
      var p := pts[0];
      if t2 <= p.cum {
        LerpMonotone(t1, t2, cum, p.cum, upper, p.le);
      } else if t1 <= p.cum {
        LerpBounds(t1, cum, p.cum, upper, p.le);
        ScanBounds(pts[1..], t2, p.le, p.cum);
      } else if p.cum > 0.0 {
        ScanMonotone(pts[1..], t1, t2, p.le, p.cum);
      } else {
        CumulativeFrom(pts[1..], p.le, upper, p.cum);
        ScanMonotone(pts[1..], t1, t2, upper, p.cum);
      }
    }
  }

  // ---------------------------------------------------------------------------------------
  // Scaling
  // ---------------------------------------------------------------------------------------

  ghost predicate Increasing(f: real -> real) {
    f(0.0) == 0.0 && forall a, b :: a < b ==> f(a) < f(b)
  }

  function MapCounts(pts: seq<Point>, f: real -> real): seq<Point> {
    if pts == [] then [] else [Point(pts[0].le, f(pts[0].cum))] + MapCounts(pts[1..], f)
  }

  function MapSpot(s: Spot, f: real -> real): Spot {
    if s.On? then s else Between(f(s.t), f(s.c0), f(s.c1), s.u0, s.u1)
  }

  /** The walk only compares counts, so any increasing change of all counts moves it to the same place. */
  lemma {:induction false} LocateMapped(pts: seq<Point>, t: real, upper: real, cum: real, f: real -> real)
    requires Increasing(f)
    ensures Locate(MapCounts(pts, f), f(t), upper, f(cum)) == MapSpot(Locate(pts, t, upper, cum), f)
  {
    if pts != [] {
      var p, mapped := pts[0], MapCounts(pts, f);
      assert mapped[0] == Point(p.le, f(p.cum)) && mapped[1..] == MapCounts(pts[1..], f);
      assert f(p.cum) >= f(t) <==> p.cum >= t;
      assert f(p.cum) <= f(cum) <==> p.cum <= cum;
      assert f(p.cum) > f(0.0) <==> p.cum > 0.0;
      LocateMapped(pts[1..], t, if p.cum > 0.0 then p.le else upper, p.cum, f);
    }
  }

  lemma SameFraction(num: real, den: real, num': real, den': real, k: real)
    requires den > 0.0 && den' > 0.0 && num' == k * num && den' == k * den
    ensures num' / den' == num / den
  {
    var f := num / den;
    Fraction(num, den);
    Fraction(num', den');
    assert f * den' == k * (f * den) == num';
    MulOrder(f, num' / den', den');
  }

  lemma LerpScaled(t: real, c0: real, c1: real, u0: real, u1: real, k: real, t': real, c0': real, c1': real)
    requires k > 0.0 && c0 < c1 && t' == k * t && c0' == k * c0 && c1' == k * c1
    ensures c0' < c1' && Lerp(t', c0', c1', u0, u1) == Lerp(t, c0, c1, u0, u1)
  {
    MulOrder(c0, c1, k);
    SameFraction(t - c0, c1 - c0, t' - c0', c1' - c0', k);
  }

  function ByFactor(k: real): real -> real { x => k * x }

  lemma ByFactorIncreasing(k: real)
    requires k > 0.0
    ensures Increasing(ByFactor(k))
  {
    forall a, b | a < b ensures ByFactor(k)(a) < ByFactor(k)(b) {
      MulOrder(a, b, k);
    }
  }

  lemma ValueScaled(s: Spot, k: real)
    requires k > 0.0 && (s.Between? ==> s.c0 < s.c1)
    ensures var s' := MapSpot(s, ByFactor(k)); (s'.Between? ==> s'.c0 < s'.c1) && Value(s') == Value(s)
  {
    if s.Between? {
      var s' := MapSpot(s, ByFactor(k));
      LerpScaled(s.t, s.c0, s.c1, s.u0, s.u1, k, s'.t, s'.c0, s'.c1);
    }
  }

  lemma ScanScaled(pts: seq<Point>, t: real, upper: real, k: real)
    requires k > 0.0
    ensures Scan(MapCounts(pts, ByFactor(k)), ByFactor(k)(t), upper, ByFactor(k)(0.0)) == Scan(pts, t, upper, 0.0)
  {
    ByFactorIncreasing(k);
    LocateMapped(pts, t, upper, 0.0, ByFactor(k));
    ValueScaled(Locate(pts, t, upper, 0.0), k);
  }

  // ---------------------------------------------------------------------------------------
  // The walk inverts the cumulative curve
  // ---------------------------------------------------------------------------------------

  /** The corners of the cumulative curve: only non-empty buckets bend it. */
  function NonEmpty(pts: seq<Point>): seq<Point> {
    if pts == [] then []
    else if pts[0].cum > 0.0 then [pts[0]] + NonEmpty(pts[1..])
    else NonEmpty(pts[1..])
  }

  predicate Positive(pts: seq<Point>) {
    forall i :: 0 <= i < |pts| ==> pts[i].cum > 0.0
  }

  lemma CumulativeWeaken(pts: seq<Point>, upper: real, upper': real, cum: real, cum': real)
    requires Cumulative(pts, upper, cum) && upper' <= upper && cum' <= cum
    ensures Cumulative(pts, upper', cum')
  {
  }

  lemma {:induction false} NonEmptyCumulative(pts: seq<Point>, upper: real, cum: real)
    requires Cumulative(pts, upper, cum)
    ensures Cumulative(NonEmpty(pts), upper, cum) && Positive(NonEmpty(pts))
  {
    if pts != [] {
      NonEmptyCumulative(pts[1..], pts[0].le, pts[0].cum);
      if pts[0].cum > 0.0 {
        assert NonEmpty(pts)[1..] == NonEmpty(pts[1..]);
      } else {
        CumulativeWeaken(NonEmpty(pts[1..]), pts[0].le, upper, pts[0].cum, cum);
      }
    }
  }

  lemma {:induction false} LocateSkipsEmpty(pts: seq<Point>, t: real, upper: real, floor: real, cum: real)
    requires Cumulative(pts, floor, cum) && 0.0 <= cum && 0.0 < t
    ensures Locate(pts, t, upper, cum) == Locate(NonEmpty(pts), t, upper, cum)
  {
    if pts != [] {
      var p := pts[0];
      LocateSkipsEmpty(pts[1..], t, if p.cum > 0.0 then p.le else upper, p.le, p.cum);
      if p.cum > 0.0 {
        assert NonEmpty(pts)[0] == p && NonEmpty(pts)[1..] == NonEmpty(pts[1..]);
      }
    }
  }

  /** The height at `x` of the piecewise-linear curve from (upper, cum) through the points. */
  function CurveAt(pts: seq<Point>, x: real, upper: real, cum: real): real
    requires Cumulative(pts, upper, cum)
  {
    if pts == [] then cum
    else if x <= pts[0].le then Lerp(x, upper, pts[0].le, cum, pts[0].cum)
    else CurveAt(pts[1..], x, pts[0].le, pts[0].cum)
  }

  function LastCum(pts: seq<Point>): real {
    if pts == [] then 0.0 else pts[|pts| - 1].cum
  }

  lemma LerpInverse(t: real, c0: real, c1: real, u0: real, u1: real)
    requires c0 < c1 && u0 < u1
    ensures Lerp(Lerp(t, c0, c1, u0, u1), u0, u1, c0, c1) == t
  {
    var f := (t - c0) / (c1 - c0);
    Fraction(t - c0, c1 - c0);
    var x := u0 + f * (u1 - u0);
    Fraction(x - u0, u1 - u0);
    MulOrder((x - u0) / (u1 - u0), f, u1 - u0);
  }

  lemma {:induction false} ScanAboveStart(pts: seq<Point>, t: real, upper: real, cum: real)
    requires Cumulative(pts, upper, cum) && Positive(pts) && 0.0 <= cum < t <= LastCum(pts)
    ensures upper < Scan(pts, t, upper, cum)
  {
    var p := pts[0];
    if p.cum >= t {
      LerpBounds(t, cum, p.cum, upper, p.le);
    } else {
      ScanAboveStart(pts[1..], t, p.le, p.cum);
    }
  }

  lemma {:induction false} CurveAtScan(pts: seq<Point>, t: real, upper: real, cum: real)
    requires Cumulative(pts, upper, cum) && Positive(pts) && 0.0 <= cum < t <= LastCum(pts)
    ensures CurveAt(pts, Scan(pts, t, upper, cum), upper, cum) == t
  {
    var p := pts[0];
    if p.cum >= t {
      LerpBounds(t, cum, p.cum, upper, p.le);
      LerpInverse(t, cum, p.cum, upper, p.le);
    } else {
      ScanAboveStart(pts[1..], t, p.le, p.cum);
      CurveAtScan(pts[1..], t, p.le, p.cum);
    }
  }

  lemma {:induction false} NonEmptyLastCum(pts: seq<Point>, upper: real, cum: real)
    requires Cumulative(pts, upper, cum) && LastCum(pts) > 0.0
    ensures LastCum(NonEmpty(pts)) == LastCum(pts)
  {
    if |pts| > 1 {
      NonEmptyLastCum(pts[1..], pts[0].le, pts[0].cum);
      assert NonEmpty(pts) == (if pts[0].cum > 0.0 then [pts[0]] else []) + NonEmpty(pts[1..]);
    } else {
      assert pts == [pts[0]] && NonEmpty(pts[1..]) == [];
    }
  }

  // ---------------------------------------------------------------------------------------
  // Against the rule that always interpolates from the preceding bound
  // ---------------------------------------------------------------------------------------

  function StandardLocate(pts: seq<Point>, target: real, prevUpper: real, prevCum: real): (s: Spot)
    ensures s.Between? ==> s.c0 < s.c1
  {
    if pts == [] then On(prevUpper)
    else if pts[0].cum >= target then
      if pts[0].cum - prevCum <= 0.0 then On(pts[0].le)
      else Between(target, prevCum, pts[0].cum, prevUpper, pts[0].le)
    else StandardLocate(pts[1..], target, pts[0].le, pts[0].cum)
  }

  function StandardScan(pts: seq<Point>, target: real, prevUpper: real, prevCum: real): real {
    Value(StandardLocate(pts, target, prevUpper, prevCum))
  }

  lemma {:induction false} StandardOnceNonEmpty(pts: seq<Point>, t: real, upper: real, floor: real, cum: real)
    requires Cumulative(pts, floor, cum) && (pts != [] ==> pts[0].cum > 0.0)
    ensures Locate(pts, t, upper, cum) == StandardLocate(pts, t, upper, cum)
  {
    if pts != [] {
      StandardOnceNonEmpty(pts[1..], t, pts[0].le, pts[0].le, pts[0].cum);
    }
  }

  /** The count of the first non-empty bucket, or 0 when there is none. */
  function FirstPositive(pts: seq<Point>): real {
    if pts == [] then 0.0 else if pts[0].cum > 0.0 then pts[0].cum else FirstPositive(pts[1..])
  }

  lemma LerpStart(t: real, c1: real, u0: real, u0': real, u1: real)
    requires 0.0 < t <= c1 && u0 < u0' < u1
    ensures Lerp(t, 0.0, c1, u0, u1) <= Lerp(t, 0.0, c1, u0', u1)
    ensures Lerp(t, 0.0, c1, u0, u1) == Lerp(t, 0.0, c1, u0', u1) <==> t == c1
  {
    var f := (t - 0.0) / (c1 - 0.0);
    Fraction(t - 0.0, c1 - 0.0);
    var gap := Lerp(t, 0.0, c1, u0', u1) - Lerp(t, 0.0, c1, u0, u1);
    assert gap == (1.0 - f) * (u0' - u0);
    MulOrder(0.0, 1.0 - f, u0' - u0);
  }

  lemma {:induction false} LeadingEmpties(pts: seq<Point>, t: real, upper: real, upper': real)
    requires Cumulative(pts, upper', 0.0) && upper < upper' && 0.0 < t
    ensures Scan(pts, t, upper, 0.0) <= StandardScan(pts, t, upper', 0.0)
    ensures Scan(pts, t, upper, 0.0) == StandardScan(pts, t, upper', 0.0) <==> 0.0 < FirstPositive(pts) <= t
  {
    if pts != [] {
      var p := pts[0];
      if p.cum >= t {
        LerpStart(t, p.cum, upper, upper', p.le);
      } else if p.cum > 0.0 {
        StandardOnceNonEmpty(pts[1..], t, p.le, p.le, p.cum);
      } else {
        LeadingEmpties(pts[1..], t, upper, p.le);
      }
    }
  }

  /**
   The code's value never exceeds the standard rule's. They agree exactly when the first bucket is
   non-empty or the target reaches the first non-empty one, or when there is no finite bucket.
   */
  lemma AgreesWithStandardIff(pts: seq<Point>, t: real)
    requires Cumulative(pts, 0.0, 0.0) && 0.0 < t
    ensures Scan(pts, t, 0.0, 0.0) <= StandardScan(pts, t, 0.0, 0.0)
    ensures Scan(pts, t, 0.0, 0.0) == StandardScan(pts, t, 0.0, 0.0) <==>
      (pts == [] || pts[0].cum > 0.0 || 0.0 < FirstPositive(pts) <= t)
  {
    if pts == [] || pts[0].cum > 0.0 {
      StandardOnceNonEmpty(pts, t, 0.0, 0.0, 0.0);
    } else {
      LeadingEmpties(pts[1..], t, 0.0, pts[0].le);
    }
  }

  // ---------------------------------------------------------------------------------------
  // From the bucket map to the quantile
  // ---------------------------------------------------------------------------------------

  function Total(es: seq<Entry>): real {
    if es == [] then 0.0
    else
      var rest := Total(es[..|es| - 1]);
      if es[|es| - 1].cum > rest then es[|es| - 1].cum else rest
  }

  /** The finite buckets at the front of a sorted listing. */
  function FinitePoints(es: seq<Entry>): seq<Point> {
    if es == [] || !es[0].bound.Finite? then []
    else [Point(es[0].bound.le, es[0].cum)] + FinitePoints(es[1..])
  }

  function QuantileAt(target: real, es: seq<Entry>): real {
    if FinitePoints(es) == [] then 0.0 else Scan(FinitePoints(es), target, 0.0, 0.0)
  }

  /** How many observations lie at or below the quantile. */
  function Target(q: real, total: real): real { q * total }

  function Quantile(q: real, es: seq<Entry>): real {
    QuantileAt(Target(q, Total(es)), es)
  }

  lemma QuantileIsAt(q: real, es: seq<Entry>, share: real)
    requires share == q * Total(es)
    ensures Quantile(q, es) == QuantileAt(share, es)
  {
    assert Target(q, Total(es)) == share;
  }

  /** A well-formed histogram: positive bounds, and counts that never fall as the bound grows. */
  predicate WellFormed(es: seq<Entry>) {
    && Ascending(es)
    && (forall i :: 0 <= i < |es| ==> es[i].cum >= 0.0 && (es[i].bound.Finite? ==> es[i].bound.le > 0.0))
    && (forall i, j :: 0 <= i < j < |es| ==> es[i].cum <= es[j].cum)
  }

  lemma {:induction false} FinitePointsCumulative(es: seq<Entry>, upper: real, cum: real)
    requires WellFormed(es)
    requires es != [] ==> cum <= es[0].cum && (es[0].bound.Finite? ==> upper < es[0].bound.le)
    ensures Cumulative(FinitePoints(es), upper, cum)
  {
    if es != [] && es[0].bound.Finite? {
      var rest := es[1..];
      assert rest != [] ==> Below(es[0].bound, es[1].bound) && es[0].cum <= es[1].cum;
      FinitePointsCumulative(rest, es[0].bound.le, es[0].cum);
      assert FinitePoints(es)[1..] == FinitePoints(rest);
    }
  }

  lemma MulPositive(a: real, b: real)
    requires a > 0.0 && b >= 0.0
    ensures a * b >= 0.0 && (b > 0.0 ==> a * b > 0.0)
  {
    if b > 0.0 {
      MulOrder(0.0, a, b);
    }
  }

  lemma {:induction false} TotalNonNegative(es: seq<Entry>)
    ensures Total(es) >= 0.0
  {
    if es != [] {
      TotalNonNegative(es[..|es| - 1]);
    }
  }

  lemma QuantileAtMonotone(es: seq<Entry>, t1: real, t2: real)
    requires WellFormed(es) && 0.0 < t1 <= t2
    ensures QuantileAt(t1, es) <= QuantileAt(t2, es)
  {
    FinitePointsCumulative(es, 0.0, 0.0);
    ScanMonotone(FinitePoints(es), t1, t2, 0.0, 0.0);
  }

  /** A larger quantile is never a smaller latency. */
  lemma QuantileMonotone(es: seq<Entry>, q1: real, q2: real)
    requires WellFormed(es) && 0.0 < q1 <= q2
    ensures Quantile(q1, es) <= Quantile(q2, es)
  {
    TotalNonNegative(es);
    if Total(es) > 0.0 {
      MulPositive(q1, Total(es));
      MulOrder(q2, q1, Total(es));
      QuantileAtMonotone(es, Target(q1, Total(es)), Target(q2, Total(es)));
    } else {
      assert Target(q1, Total(es)) == Target(q2, Total(es));
    }
  }

  lemma ScanAtZero(pts: seq<Point>)
    requires Cumulative(pts, 0.0, 0.0) && pts != []
    ensures Scan(pts, 0.0, 0.0, 0.0) == if pts[0].cum > 0.0 then 0.0 else pts[0].le
  {
    if pts[0].cum > 0.0 {
      Fraction(0.0 - 0.0, pts[0].cum - 0.0);
    }
  }

  lemma QuantileAtInRange(es: seq<Entry>, target: real)
    requires WellFormed(es) && 0.0 <= target
    ensures 0.0 <= QuantileAt(target, es) <= LastUpper(FinitePoints(es), 0.0)
  {
    var pts := FinitePoints(es);
    FinitePointsCumulative(es, 0.0, 0.0);
    LastUpperAbove(pts, 0.0, 0.0);
    if target > 0.0 {
      ScanBounds(pts, target, 0.0, 0.0);
    } else if pts != [] {
      LastUpperAbove(pts[1..], pts[0].le, pts[0].cum);
      ScanAtZero(pts);
    }
  }

  /** Every answer lies between zero and the largest finite bound. */
  lemma QuantileInRange(es: seq<Entry>, q: real)
    requires WellFormed(es) && 0.0 <= q
    ensures 0.0 <= Quantile(q, es) <= LastUpper(FinitePoints(es), 0.0)
  {
    TotalNonNegative(es);
    if q > 0.0 {
      MulPositive(q, Total(es));
    }
    QuantileAtInRange(es, Target(q, Total(es)));
  }

  function MapEntries(es: seq<Entry>, f: real -> real): (es': seq<Entry>)
    ensures |es'| == |es|
    ensures forall i :: 0 <= i < |es| ==> es'[i] == Entry(es[i].bound, f(es[i].cum))
  {
    if es == [] then [] else MapEntries(es[..|es| - 1], f) + [Entry(es[|es| - 1].bound, f(es[|es| - 1].cum))]
  }

  lemma {:induction false} MappedTotal(es: seq<Entry>, f: real -> real)
    requires Increasing(f)
    ensures Total(MapEntries(es, f)) == f(Total(es))
  {
    if es != [] {
      var rest := es[..|es| - 1];
      MappedTotal(rest, f);
      assert MapEntries(es, f)[..|es| - 1] == MapEntries(rest, f);
      assert f(es[|es| - 1].cum) > f(Total(rest)) <==> es[|es| - 1].cum > Total(rest);
    }
  }

  lemma {:induction false} MappedPoints(es: seq<Entry>, f: real -> real)
    ensures FinitePoints(MapEntries(es, f)) == MapCounts(FinitePoints(es), f)
  {
    if es != [] && es[0].bound.Finite? {
      MappedPoints(es[1..], f);
      assert MapEntries(es, f)[1..] == MapEntries(es[1..], f);
      assert FinitePoints(es)[0] == Point(es[0].bound.le, es[0].cum) && FinitePoints(es)[1..] == FinitePoints(es[1..]);
    }
  }

  lemma QuantileAtScaled(es: seq<Entry>, target: real, k: real)
    requires k > 0.0
    ensures QuantileAt(ByFactor(k)(target), MapEntries(es, ByFactor(k))) == QuantileAt(target, es)
  {
    MappedPoints(es, ByFactor(k));
    ScanScaled(FinitePoints(es), target, 0.0, k);
  }

  lemma ScaledTarget(q: real, total: real, k: real)
    ensures Target(q, ByFactor(k)(total)) == ByFactor(k)(Target(q, total))
  {
    assert q * (k * total) == k * (q * total);
  }

  /** Counting in different units, every count times the same positive factor, changes no quantile. */
  lemma QuantileScaleInvariant(es: seq<Entry>, q: real, k: real)
    requires k > 0.0
    ensures Quantile(q, MapEntries(es, ByFactor(k))) == Quantile(q, es)
  {
    ByFactorIncreasing(k);
    MappedTotal(es, ByFactor(k));
    ScaledTarget(q, Total(es), k);
    QuantileAtScaled(es, Target(q, Total(es)), k);
  }

  lemma QuantileAtOnCurve(es: seq<Entry>, target: real)
    requires WellFormed(es) && 0.0 < target <= LastCum(FinitePoints(es))
    ensures Cumulative(NonEmpty(FinitePoints(es)), 0.0, 0.0)
    ensures CurveAt(NonEmpty(FinitePoints(es)), QuantileAt(target, es), 0.0, 0.0) == target
  {
    var pts := FinitePoints(es);
    FinitePointsCumulative(es, 0.0, 0.0);
    NonEmptyCumulative(pts, 0.0, 0.0);
    NonEmptyLastCum(pts, 0.0, 0.0);
    LocateSkipsEmpty(pts, target, 0.0, 0.0, 0.0);
    CurveAtScan(NonEmpty(pts), target, 0.0, 0.0);
  }

  /**
   Where the finite buckets reach the share `q` of all observations, the answer is where the cumulative
   curve through the non-empty buckets stands at exactly that share.
   */
  lemma QuantileOnCurve(es: seq<Entry>, q: real, share: real)
    requires WellFormed(es) && share == q * Total(es) && 0.0 < share <= LastCum(FinitePoints(es))
    ensures Cumulative(NonEmpty(FinitePoints(es)), 0.0, 0.0)
    ensures CurveAt(NonEmpty(FinitePoints(es)), Quantile(q, es), 0.0, 0.0) == share
  {
    QuantileIsAt(q, es, share);
    QuantileAtOnCurve(es, share);
  }

  lemma {:induction false} LastCumAbove(pts: seq<Point>, upper: real, cum: real)
    requires Cumulative(pts, upper, cum) && pts != []
    ensures cum <= pts[0].cum <= LastCum(pts)
  {
    if |pts| > 1 {
      LastCumAbove(pts[1..], pts[0].le, pts[0].cum);
    }
  }

  lemma {:induction false} ScanBeyond(pts: seq<Point>, t: real, upper: real, cum: real)
    requires Cumulative(pts, upper, cum) && (pts != [] ==> LastCum(pts) < t)
    ensures Scan(pts, t, upper, cum) == if pts != [] && LastCum(pts) > 0.0 then LastUpper(pts, upper) else upper
  {
    if pts != [] {
      LastCumAbove(pts, upper, cum);
      var first := pts[0];
      CumulativeWeaken(pts[1..], first.le, if first.cum > 0.0 then first.le else upper, first.cum, first.cum);
      ScanBeyond(pts[1..], t, if first.cum > 0.0 then first.le else upper, first.cum);
      if pts[1..] == [] {
        assert LastCum(pts) == first.cum;
      } else {
        assert LastCum(pts) == LastCum(pts[1..]);
      }
    }
  }

  /** Where they do not reach it, the answer is the largest finite bound, or zero if they hold nothing. */
  lemma QuantileBeyondFinite(es: seq<Entry>, q: real, share: real)
    requires WellFormed(es) && share == q * Total(es) && FinitePoints(es) != [] && share > LastCum(FinitePoints(es))
    ensures Quantile(q, es) == if LastCum(FinitePoints(es)) > 0.0 then LastUpper(FinitePoints(es), 0.0) else 0.0
  {
    QuantileIsAt(q, es, share);
    FinitePointsCumulative(es, 0.0, 0.0);
    ScanBeyond(FinitePoints(es), share, 0.0, 0.0);
  }

  lemma {:induction false} TotalAtMost(es: seq<Entry>, bound: real)
    requires bound >= 0.0 && forall i :: 0 <= i < |es| ==> es[i].cum <= bound
    ensures Total(es) <= bound
  {
    if es != [] {
      TotalAtMost(es[..|es| - 1], bound);
    }
  }

  /** The number of all observations is the last cumulative count. */
  lemma TotalIsLast(es: seq<Entry>)
    requires WellFormed(es) && es != []
    ensures Total(es) == es[|es| - 1].cum
  {
    TotalAtMost(es[..|es| - 1], es[|es| - 1].cum);
  }

  lemma QuantileAtStandardIff(es: seq<Entry>, target: real)
    requires WellFormed(es) && 0.0 < target && FinitePoints(es) != []
    ensures var pts := FinitePoints(es);
      var standard := StandardScan(pts, target, 0.0, 0.0);
      && QuantileAt(target, es) <= standard
      && (QuantileAt(target, es) == standard <==> pts[0].cum > 0.0 || 0.0 < FirstPositive(pts) <= target)
  {
    FinitePointsCumulative(es, 0.0, 0.0);
    AgreesWithStandardIff(FinitePoints(es), target);
  }

  /** The quantile never exceeds the standard rule's, and equals it exactly under the stated condition. */
  lemma QuantileStandardIff(es: seq<Entry>, q: real, share: real)
    requires WellFormed(es) && share == q * Total(es) && 0.0 < share && FinitePoints(es) != []
    ensures var pts := FinitePoints(es);
      var standard := StandardScan(pts, share, 0.0, 0.0);
      && Quantile(q, es) <= standard
      && (Quantile(q, es) == standard <==> pts[0].cum > 0.0 || 0.0 < FirstPositive(pts) <= share)
  {
    QuantileIsAt(q, es, share);
    QuantileAtStandardIff(es, share);
  }

  lemma {:induction false} AtMostTotal(es: seq<Entry>, i: nat)
    requires i < |es|
    ensures es[i].cum <= Total(es)
  {
    if i < |es| - 1 {
      AtMostTotal(es[..|es| - 1], i);
    }
  }

  /** An empty first bucket and ten observations in the second: the median falls short of the standard rule's. */
  lemma EmptyBucketLowers() returns (es: seq<Entry>)
    ensures WellFormed(es) && FinitePoints(es) != []
    ensures Quantile(0.5, es) < StandardScan(FinitePoints(es), 0.5 * Total(es), 0.0, 0.0)
  {
    es := [Entry(Finite(1.0), 0.0), Entry(Finite(2.0), 10.0)];
    assert es[..1] == [es[0]] && es[..1][..0] == [];
    assert Total(es[..1]) == 0.0;
    assert Total(es) == 10.0 && 0.5 * Total(es) == 5.0;
    assert es[1..] == [es[1]] && es[1..][1..] == [];
    assert FinitePoints(es[1..]) == [Point(2.0, 10.0)];
    var pts := FinitePoints(es);
    assert pts == [Point(1.0, 0.0), Point(2.0, 10.0)];
    assert pts[1..] == [Point(2.0, 10.0)];
    QuantileStandardIff(es, 0.5, 5.0);
  }

  /** A histogram without a single observation answers its first finite bound, not zero. */
  lemma EmptyHistogramAnswersFirstBound(es: seq<Entry>, q: real)
    requires WellFormed(es) && Total(es) == 0.0 && FinitePoints(es) != []
    ensures Quantile(q, es) == FinitePoints(es)[0].le > 0.0
  {
    FinitePointsCumulative(es, 0.0, 0.0);
    AtMostTotal(es, 0);
    ScanAtZero(FinitePoints(es));
    assert Target(q, Total(es)) == 0.0;
  }

  // ---------------------------------------------------------------------------------------
  // The function itself: list, sort, total, walk
  // ---------------------------------------------------------------------------------------

  predicate DistinctBounds(es: seq<Entry>) {
    && (forall i :: 0 <= i < |es| ==> !es[i].bound.Malformed?)
    && (forall i, j :: 0 <= i < j < |es| ==> es[i].bound != es[j].bound)
  }

  function Insert(e: Entry, es: seq<Entry>): (r: seq<Entry>)
    requires Ascending(es) && !e.bound.Malformed?
    requires forall i :: 0 <= i < |es| ==> es[i].bound != e.bound && !es[i].bound.Malformed?
    ensures Ascending(r) && (forall x :: x in r <==> x == e || x in es)
  {
    if es == [] then [e]
    else if Below(e.bound, es[0].bound) then [e] + es
    else
      var rest := Insert(e, es[1..]);
      assert es == [es[0]] + es[1..];
      assert forall i :: 0 <= i < |rest| ==> rest[i] in rest;
      [es[0]] + rest
  }

  /** The library sort by bound, as far as its contract goes: ascending, and the same entries. */
  function SortByBound(es: seq<Entry>): (r: seq<Entry>)
    requires DistinctBounds(es)
    ensures Ascending(r) && (forall x :: x in r <==> x in es)
  {
    if es == [] then []
    else
      var rest := SortByBound(es[1..]);
      assert es == [es[0]] + es[1..];
      assert forall i :: 0 <= i < |rest| ==> rest[i] in es[1..];
      Insert(es[0], rest)
  }

  /** The map is walked in whatever order the runtime picks, skipping labels that do not parse. */
  method ParseBuckets(buckets: Buckets) returns (parsed: seq<Entry>)
    ensures DistinctBounds(parsed)
    ensures forall e :: e in parsed ==> e.bound in buckets && e.cum == buckets[e.bound]
    ensures forall k :: k in buckets && !k.Malformed? ==> Entry(k, buckets[k]) in parsed
  {
    parsed := [];
    var left := buckets.Keys;
    while left != {}
      invariant left <= buckets.Keys && DistinctBounds(parsed)
      invariant forall e :: e in parsed ==> e.bound in buckets.Keys - left && e.cum == buckets[e.bound]
      invariant forall k :: k in buckets.Keys - left && !k.Malformed? ==> Entry(k, buckets[k]) in parsed
    {
      var k :| k in left;
      left := left - {k};
      if !k.Malformed? {
        assert forall i :: 0 <= i < |parsed| ==> parsed[i] in parsed;
        parsed := parsed + [Entry(k, buckets[k])];
      }
    }
  }

  lemma {:induction false} FinitePointsAre(es: seq<Entry>, n: nat)
    requires n <= |es|
    requires forall j :: 0 <= j < n ==> es[j].bound.Finite?
    requires forall j :: n <= j < |es| ==> !es[j].bound.Finite?
    ensures |FinitePoints(es)| == n
    ensures forall j :: 0 <= j < n ==> FinitePoints(es)[j] == Point(es[j].bound.le, es[j].cum)
  {
    if n > 0 {
      FinitePointsAre(es[1..], n - 1);
    }
  }

  method Walk(parsed: seq<Entry>, lastFinite: nat, target: real) returns (r: real)
    requires lastFinite < |parsed|
    requires forall j :: 0 <= j < |parsed| ==> (parsed[j].bound.Finite? <==> j <= lastFinite)
    ensures r == QuantileAt(target, parsed)
  {
    FinitePointsAre(parsed, lastFinite + 1);
    ghost var pts := FinitePoints(parsed);
    var prevUpper, prevCum := 0.0, 0.0;
    for i := 0 to lastFinite + 1
      invariant Locate(pts[i..], target, prevUpper, prevCum) == Locate(pts, target, 0.0, 0.0)
    {
      var p := parsed[i];
      assert pts[i] == Point(p.bound.le, p.cum) && pts[i..][1..] == pts[i + 1..];
      if p.cum >= target {
        var countInBucket := p.cum - prevCum;
        if countInBucket <= 0.0 {
          return p.bound.le;
        }
        var frac := (target - prevCum) / countInBucket;
        r := prevUpper + frac * (p.bound.le - prevUpper);
        assert Locate(pts[i..], target, prevUpper, prevCum) == Between(target, prevCum, p.cum, prevUpper, p.bound.le);
        assert r == Lerp(target, prevCum, p.cum, prevUpper, p.bound.le);
        return;
      }
      if p.cum > 0.0 {
        prevUpper := p.bound.le;
      }
      prevCum := p.cum;
    }
    return prevUpper;
  }

  /** From the sorted entries on: the total, the last finite bucket, the walk. */
  method SortedQuantile(q: real, parsed: seq<Entry>) returns (r: real)
    requires Ascending(parsed)
    ensures r == Quantile(q, parsed)
  {
    var total := 0.0;
    for i := 0 to |parsed|
      invariant total == Total(parsed[..i])
    {
      assert parsed[..i + 1][..i] == parsed[..i];
      if parsed[i].cum > total {
        total := parsed[i].cum;
      }
    }
    assert parsed[..|parsed|] == parsed;
    var lastFinite := -1;
    for i := 0 to |parsed|
      invariant -1 <= lastFinite < i
      invariant forall j :: 0 <= j < i ==> (parsed[j].bound.Finite? <==> j <= lastFinite)
    {
      if parsed[i].bound.Finite? {
        assert forall j :: 0 <= j < i ==> Below(parsed[j].bound, parsed[i].bound);
        lastFinite := i;
      }
    }
    if lastFinite < 0 {
      FinitePointsAre(parsed, 0);
      return 0.0;
    }
    r := Walk(parsed, lastFinite, Target(q, total));
  }

  /** The answer is that of the map's one sorted listing, whatever the iteration order. */
  method HistogramQuantile(q: real, buckets: Buckets) returns (r: real)
    ensures exists es :: SortedListing(es, buckets) && r == Quantile(q, es)
  {
    var parsed := ParseBuckets(buckets);
    var sorted := SortByBound(parsed);
    assert forall i :: 0 <= i < |sorted| ==> sorted[i] in sorted;
    assert forall i :: 0 <= i < |parsed| ==> parsed[i] in parsed;
    assert SortedListing(sorted, buckets);
    if |sorted| == 0 {
      FinitePointsAre(sorted, 0);
      return 0.0;
    }
    r := SortedQuantile(q, sorted);
  }
}
