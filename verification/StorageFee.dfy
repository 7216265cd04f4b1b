/** What a change of storage usage costs (utils/storage_fee.go). Sizes are 64-bit
    unsigned numbers; the division into GiB goes through a 64-bit float. */
module StorageFee {
  import opened Arithmetic

  const MIB: nat := 0x10_0000
  const GIB: nat := 0x4000_0000

  datatype Params = Params(freeStorageMb: uint64, pricePerGb: nat)

  datatype Cost = Cost(charge: nat, currentUsage: uint64, newUsage: uint64, freeLimit: uint64)

  /** Unsigned subtraction, wrapping around. */
  function Minus(a: uint64, b: uint64): uint64 {
    if a >= b then a - b else a - b + TWO_64
  }

  function FreeBytes(params: Params): uint64 {
    (params.freeStorageMb * MIB) % TWO_64
  }

  // ----- conversion to float64 -----------------------------------------

  /** The distance between neighbouring floats with a 53-bit significand at `x`. */
  function Unit(x: nat): (u: nat)
    ensures u > 0
  {
    if x < TWO_53 then 1 else 2 * Unit(x / 2)
  }

  /** The nearest multiple of the unit, ties to the even one. */
  function RoundTo(x: nat, u: nat): nat
    requires u > 0
  {
    var q, r := x / u, x % u;
    if 2 * r < u || (2 * r == u && q % 2 == 0) then q * u else (q + 1) * u
  }

  /** The nearest float, ties to the even significand. */
  function ToFloat(x: nat): nat {
    RoundTo(x, Unit(x))
  }

  /** `int64(float64(bytes) / (1024 * 1024 * 1024))`: dividing by a power of two is exact,
      the conversion to an integer truncates. */
  function WholeGib(bytes: uint64): nat {
    ToFloat(bytes) / GIB
  }

  function Charge(bytes: uint64, params: Params): nat {
    WholeGib(bytes) * params.pricePerGb
  }

  function CalculateStorageCost(currentUsage: uint64, newUsage: uint64, params: Params): Cost {
    var free := FreeBytes(params);
    if currentUsage > free then
      var diff := Minus(newUsage, currentUsage);
      if diff <= 0 then Cost(0, currentUsage, newUsage, free)
      else Cost(Charge(diff, params), currentUsage, newUsage, free)
    else if newUsage <= free then Cost(0, currentUsage, newUsage, free)
    else
      var excess := Minus(newUsage, free);
      Cost(Charge(excess, params), currentUsage, newUsage, free)
  }

  // ----- one step ------------------------------------------------------

  function Above(usage: uint64, free: uint64): nat {
    if usage > free then usage - free else 0
  }

  /** How much more of the usage lies above the free limit; nothing when it shrinks. */
  function Growth(currentUsage: uint64, newUsage: uint64, params: Params): nat {
    var free := FreeBytes(params);
    if Above(newUsage, free) > Above(currentUsage, free) then Above(newUsage, free) - Above(currentUsage, free) else 0
  }

  /** The float that stands for `bytes` is the next whole GiB. */
  predicate RoundsUp(bytes: nat) {
    2 * (GIB - bytes % GIB) <= Unit(bytes)
  }

  function Power(n: nat): (r: nat)
    ensures r > 0
  {
    if n == 0 then 1 else 2 * Power(n - 1)
  }

  /** The unit divides 2 to the power of the surplus bits. */
  lemma {:induction false} UnitTimes(x: nat, n: nat) returns (k: nat)
    requires x < TWO_53 * Power(n)
    ensures k * Unit(x) == Power(n)
  {
    if x < TWO_53 {
      k := Power(n);
    } else {
      k := UnitTimes(x / 2, n - 1);
      assert k * Unit(x) == 2 * (k * Unit(x / 2));
    }
  }

  lemma UnitDivides(x: nat) returns (m: nat)
    requires x < TWO_64
    ensures GIB == m * Unit(x) && m % 2 == 0
  {
    assert Power(11) == 0x800;
    var k := UnitTimes(x, 11);
    m := 0x8_0000 * k;
    assert m * Unit(x) == 0x8_0000 * (k * Unit(x));
  }

  /** How many bytes below the next whole GiB: a whole number `w` of units less the remainder. */
  lemma BelowNext(x: nat, u: nat, m: nat) returns (w: nat)
    requires u > 0 && GIB == m * u
    ensures GIB - x % GIB == w * u - x % u
    ensures 1 <= w <= m && x / u == (x / GIB + 1) * m - w
  {
    var q, Q, R := x / u, x / GIB, x % GIB;
    var s := R / u;
    assert R == s * u + R % u;
    assert x == (Q * m + s) * u + R % u by { Regrouped(Q, m, s, u); }
    Quotient(x, u, Q * m + s, R % u);
    Regrouped(0, m, s, u);
    FarMultiple(s - m, u);
    w := m - s;
    assert (Q + 1) * m == Q * m + m;
  }

  lemma Regrouped(Q: nat, m: nat, s: nat, u: nat)
    ensures Q * (m * u) + s * u == (Q * m + s) * u
    ensures (m - s) * u == m * u - s * u && (s - m) * u == s * u - m * u
  { }

  lemma OddBelow(k: nat, m: nat)
    requires m % 2 == 0 && k * m >= 1
    ensures (k * m - 1) % 2 == 1
  {
    var h := m / 2;
    assert k * m == 2 * (k * h);
  }

  /** Rounding towards the multiple `next` of GIB that lies `w` units above `q` units. */
  lemma RoundNearNext(next: nat, w: nat, u: nat, q: nat, r: nat)
    requires next >= GIB && next % GIB == 0
    requires u > 0 && r < u && w >= 1 && w * u <= GIB && q * u == next - w * u
    requires w == 1 ==> q % 2 == 1
    ensures var f := if 2 * r < u || (2 * r == u && q % 2 == 0) then q * u else (q + 1) * u;
      f / GIB == next / GIB - 1 + if 2 * (w * u - r) <= u then 1 else 0
  {
    assert (q + 1) * u == q * u + u;
    if w == 1 {
      assert w * u == u;
    } else {
      assert w * u >= 2 * u;
    }
  }

  lemma Regroup(k: int, m: int, u: int, w: int)
    ensures k * (m * u) == (k * m) * u
    ensures (k * m - w) * u == k * (m * u) - w * u
    ensures w * u + (m - w) * u == m * u
  { }

  /** Where `x` lies below the next whole GiB, in units. */
  lemma Placed(x: nat, u: nat, m: nat) returns (w: nat)
    requires u > 0 && GIB == m * u && m % 2 == 0
    ensures w >= 1 && w * u <= GIB
    ensures (x / u) * u == (x / GIB + 1) * GIB - w * u
    ensures GIB - x % GIB == w * u - x % u
    ensures w == 1 ==> (x / u) % 2 == 1
  {
    w := BelowNext(x, u, m);
    Regroup(x / GIB + 1, m, u, w);
    FarMultiple(m - w, u);
    if w == 1 { OddBelow(x / GIB + 1, m); }
  }

  lemma RoundedGib(x: nat, u: nat, m: nat)
    requires u > 0 && GIB == m * u && m % 2 == 0
    ensures RoundTo(x, u) / GIB == x / GIB + if 2 * (GIB - x % GIB) <= u then 1 else 0
  {
    var w := Placed(x, u, m);
    RoundNearNext((x / GIB + 1) * GIB, w, u, x / u, x % u);
  }

  /** The charged GiB are the whole GiB, or one more where the float rounds up to it. */
  lemma FloatFloor(x: uint64)
    ensures WholeGib(x) == x / GIB + if RoundsUp(x) then 1 else 0
    ensures x < TWO_53 ==> !RoundsUp(x)
  {
    var m := UnitDivides(x);
    RoundedGib(x, Unit(x), m);
  }

  lemma PriceCancels(a: nat, b: nat, price: nat)
    ensures a * price == b * price <==> price == 0 || a == b
  {
    FarMultiple(a - b, if price > 0 then price else 1);
    assert a * price - b * price == (a - b) * price;
  }

  lemma ChargedGib(currentUsage: uint64, newUsage: uint64, params: Params)
    ensures var free := FreeBytes(params);
      CalculateStorageCost(currentUsage, newUsage, params).charge ==
      (if currentUsage > free && newUsage < currentUsage
       then WholeGib(TWO_64 - (currentUsage - newUsage))
       else WholeGib(Growth(currentUsage, newUsage, params))) * params.pricePerGb
  {
    var free := FreeBytes(params);
    FloatFloor(0);
    assert Growth(currentUsage, newUsage, params) == 0 ==> WholeGib(Growth(currentUsage, newUsage, params)) == 0;
  }

  /** The part of the growth that lies above the free limit of so many MiB, and the figures
      that come with the charge. */
  lemma GrowthIs(currentUsage: uint64, newUsage: uint64, params: Params, free: nat)
    requires free == params.freeStorageMb * 1024 * 1024 % 0x1_0000_0000_0000_0000
    ensures FreeBytes(params) == free
    ensures Growth(currentUsage, newUsage, params)
            == if newUsage <= free || newUsage <= currentUsage then 0
               else newUsage - if currentUsage <= free then free else currentUsage
    ensures var cost := CalculateStorageCost(currentUsage, newUsage, params);
      cost == Cost(cost.charge, currentUsage, newUsage, free)
  { }

  /** The charge is the price of the whole GiB of growth above the free limit, except where
      the float rounds up to a whole GiB, and except when usage above the limit shrinks:
      the unsigned difference then wraps around, and only shrinking by more than
      2^64 - 2^30 bytes stays free. */
  lemma ChargeIsGrowthIff(currentUsage: uint64, newUsage: uint64, params: Params, free: nat)
    requires free == params.freeStorageMb * 1024 * 1024 % 0x1_0000_0000_0000_0000
    ensures var growth := if newUsage <= free || newUsage <= currentUsage then 0
                          else newUsage - if currentUsage <= free then free else currentUsage;
      CalculateStorageCost(currentUsage, newUsage, params).charge == (growth / 0x4000_0000) * params.pricePerGb
      <==> (|| params.pricePerGb == 0
            || if currentUsage > free && newUsage < currentUsage then currentUsage - newUsage > TWO_64 - GIB
               else !RoundsUp(growth))
  {
    GrowthIs(currentUsage, newUsage, params, free);
    var growth := Growth(currentUsage, newUsage, params);
    ChargedGib(currentUsage, newUsage, params);
    if currentUsage > free && newUsage < currentUsage {
      var diff := TWO_64 - (currentUsage - newUsage);
      FloatFloor(diff);
      PriceCancels(WholeGib(diff), growth / GIB, params.pricePerGb);
    } else {
      FloatFloor(growth);
      PriceCancels(WholeGib(growth), growth / GIB, params.pricePerGb);
    }
  }

  /** Such a charge: going back from 2 GiB to 1 GiB costs the price of almost 2^34 GiB. */
  lemma ShrinkingIsCharged(price: nat)
    ensures CalculateStorageCost(2 * GIB, GIB, Params(0, price)).charge == 0x3_FFFF_FFFF * price
  {
    var diff: uint64 := TWO_64 - GIB;
    var m := UnitDivides(diff);
    FarMultiple(m, Unit(diff));
    FloatFloor(diff);
    ChargedGib(2 * GIB, GIB, Params(0, price));
  }

  /** Usage that grows and stays below 2^53 bytes is charged exactly that. */
  lemma ChargeBelow53(currentUsage: uint64, newUsage: uint64, params: Params)
    requires currentUsage <= newUsage < TWO_53
    ensures CalculateStorageCost(currentUsage, newUsage, params).charge
            == (Growth(currentUsage, newUsage, params) / GIB) * params.pricePerGb
  {
    GrowthIs(currentUsage, newUsage, params, FreeBytes(params));
    ChargeIsGrowthIff(currentUsage, newUsage, params, FreeBytes(params));
    FloatFloor(Growth(currentUsage, newUsage, params));
  }

  // ----- runs ----------------------------------------------------------

  predicate Growing(usages: seq<uint64>) {
    && (forall i | 0 <= i < |usages| :: usages[i] < TWO_53)
    && forall i, j | 0 <= i <= j < |usages| :: usages[i] <= usages[j]
  }

  function Charges(usages: seq<uint64>, params: Params): nat {
    if |usages| < 2 then 0
    else
      Charges(usages[..|usages| - 1], params)
      + CalculateStorageCost(usages[|usages| - 2], usages[|usages| - 1], params).charge
  }

  /** The whole GiB of each step, added up. */
  function Gibs(usages: seq<uint64>, params: Params): nat {
    if |usages| < 2 then 0
    else Gibs(usages[..|usages| - 1], params) + Growth(usages[|usages| - 2], usages[|usages| - 1], params) / GIB
  }

  /** The steps with growth above the free limit. */
  function Billable(usages: seq<uint64>, params: Params): nat {
    if |usages| < 2 then 0
    else
      Billable(usages[..|usages| - 1], params)
      + if Growth(usages[|usages| - 2], usages[|usages| - 1], params) > 0 then 1 else 0
  }

  lemma {:induction false} ChargesAreGibs(usages: seq<uint64>, params: Params)
    requires Growing(usages)
    ensures Charges(usages, params) == Gibs(usages, params) * params.pricePerGb
  {
    if |usages| >= 2 {
      var front := usages[..|usages| - 1];
      var a, b := usages[|usages| - 2], usages[|usages| - 1];
      ChargesAreGibs(front, params);
      ChargeBelow53(a, b, params);
      Distribute(Gibs(front, params), Growth(a, b, params) / GIB, params.pricePerGb);
    }
  }

  lemma Distribute(a: nat, b: nat, price: nat)
    ensures a * price + b * price == (a + b) * price
  { }

  lemma {:induction false} GibsOfRun(usages: seq<uint64>, params: Params)
    requires Growing(usages) && |usages| > 0
    ensures var whole, k := Growth(usages[0], usages[|usages| - 1], params), Billable(usages, params);
      && Gibs(usages, params) <= whole / GIB <= Gibs(usages, params) + (if k == 0 then 0 else k - 1)
      && (k == 0 <==> whole == 0)
  {
    if |usages| >= 2 { GibsOfRun(usages[..|usages| - 1], params); }
  }

  /** Paying for growth in steps costs at most what paying at once would, and at most
      (k - 1) GiB less, `k` being the number of steps with billable growth. */
  lemma SteppingSaves(usages: seq<uint64>, params: Params)
    requires Growing(usages) && |usages| > 0
    ensures var once := CalculateStorageCost(usages[0], usages[|usages| - 1], params).charge;
      var k := Billable(usages, params);
      Charges(usages, params) <= once <= Charges(usages, params) + (if k == 0 then 0 else k - 1) * params.pricePerGb
  {
    var first, last := usages[0], usages[|usages| - 1];
    var k := Billable(usages, params);
    var saved: nat := if k == 0 then 0 else k - 1;
    ChargesAreGibs(usages, params);
    GibsOfRun(usages, params);
    ChargeBelow53(first, last, params);
    PriceBetween(Gibs(usages, params), Growth(first, last, params) / GIB, saved, params.pricePerGb);
  }

  lemma PriceBetween(a: nat, b: nat, saved: nat, price: nat)
    requires a <= b <= a + saved
    ensures a * price <= b * price <= a * price + saved * price
  {
    Scale(a, b, price);
    Scale(b, a + saved, price);
    Distribute(a, saved, price);
  }

  lemma Scale(a: nat, b: nat, price: nat)
    requires a <= b
    ensures a * price <= b * price
  { }

  /** Growth in steps of less than one GiB is never charged, however much it comes to. */
  lemma {:induction false} SmallStepsAreFree(usages: seq<uint64>, params: Params)
    requires Growing(usages)
    requires forall i | 0 < i < |usages| :: usages[i] - usages[i - 1] < GIB
    ensures Charges(usages, params) == 0
  {
    if |usages| >= 2 {
      SmallStepsAreFree(usages[..|usages| - 1], params);
      ChargeBelow53(usages[|usages| - 2], usages[|usages| - 1], params);
    }
  }
}
