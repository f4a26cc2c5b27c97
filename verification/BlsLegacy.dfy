/**
 The legacy BLS12-381 precompile: the price of a G1 multi-scalar multiplication (EIP-2537), computed
 from a table of discounts in u64 arithmetic.
 */
module BlsLegacy {
  const U32_LIMIT := 0x1_0000_0000
  const U64_LIMIT := 0x1_0000_0000_0000_0000

  const MSM_MULTIPLIER := 1000
  const G1_MSM_GAS := 12000

  // The 128 discounts, sixteen to a row.
  const ROW_0: seq<nat> := [1000, 949, 848, 797, 764, 750, 738, 728, 719, 712, 705, 698, 692, 687, 682, 677]
  const ROW_1: seq<nat> := [673, 669, 665, 661, 658, 654, 651, 648, 645, 642, 640, 637, 635, 632, 630, 627]
  const ROW_2: seq<nat> := [625, 623, 621, 619, 617, 615, 613, 611, 609, 608, 606, 604, 603, 601, 599, 598]
  const ROW_3: seq<nat> := [596, 595, 593, 592, 591, 589, 588, 586, 585, 584, 582, 581, 580, 579, 577, 576]
  const ROW_4: seq<nat> := [575, 574, 573, 572, 570, 569, 568, 567, 566, 565, 564, 563, 562, 561, 560, 559]
  const ROW_5: seq<nat> := [558, 557, 556, 555, 554, 553, 552, 551, 550, 549, 548, 547, 547, 546, 545, 544]
  const ROW_6: seq<nat> := [543, 542, 541, 540, 540, 539, 538, 537, 536, 536, 535, 534, 533, 532, 532, 531]
  const ROW_7: seq<nat> := [530, 529, 528, 528, 527, 526, 525, 525, 524, 523, 522, 522, 521, 520, 520, 519]

  const DISCOUNT_TABLE_G1_MSM := ROW_0 + (ROW_1 + (ROW_2 + (ROW_3 + (ROW_4 + (ROW_5 + (ROW_6 + ROW_7))))))

  // The discount for k pairs; the last one goes on for ever.
  function Discount(table: seq<nat>, k: nat): nat
    requires table != [] && k > 0
  {
    table[if k <= |table| then k - 1 else |table| - 1]
  }

  // What k pairs cost at discount d, in u64 products that wrap around.
  function Charge(k: nat, d: nat): nat {
    k * d % U64_LIMIT * G1_MSM_GAS % U64_LIMIT / MSM_MULTIPLIER
  }

  /** `msm_required_gas` at the multiplication cost of G1. */
  function MsmRequiredGas(table: seq<nat>, k: nat): nat
    requires table != []
  {
    if k == 0 then 0 else Charge(k, Discount(table, k))
  }

  // The same in exact arithmetic.
  function Exact(k: nat, d: nat): nat { 12 * (k * d) }

  function Price(table: seq<nat>, k: nat): nat
    requires table != []
  {
    if k == 0 then 0 else Exact(k, Discount(table, k))
  }

  // From one row to the next the discount falls, but slower than the number of pairs rises.
  predicate Falling(table: seq<nat>, i: nat)
    requires i + 1 < |table|
  {
    1 <= table[i + 1] <= table[i] <= 1000 && (i + 1) * table[i] < (i + 2) * table[i + 1]
  }

  ghost predicate Falls(table: seq<nat>) {
    |table| >= 2 && forall i :: 0 <= i < |table| - 1 ==> Falling(table, i)
  }

  lemma DiscountStep(table: seq<nat>, k: nat)
    requires Falls(table) && k > 0
    ensures 1 <= Discount(table, k + 1) <= Discount(table, k) <= 1000
    ensures k * Discount(table, k) < (k + 1) * Discount(table, k + 1)
  {
    assert Falling(table, if k < |table| then k - 1 else |table| - 2);
  }

  lemma {:induction false} DiscountsFall(table: seq<nat>, a: nat, b: nat)
    requires Falls(table) && 0 < a <= b
    ensures Discount(table, b) <= Discount(table, a)
    decreases b - a
  {
    if a == b {
    } else {
      DiscountStep(table, a);
      DiscountsFall(table, a + 1, b);
    }
  }

  /** More pairs always cost more. */
  lemma {:induction false} PriceIncreases(table: seq<nat>, a: nat, b: nat)
    requires Falls(table) && a < b
    ensures Price(table, a) < Price(table, b)
    decreases b - a
  {
    DiscountStep(table, if a > 0 then a else 1);
    if a + 1 == b {
    } else {
      PriceIncreases(table, a + 1, b);
    }
  }

  lemma Scaled(n: nat, small: nat, large: nat)
    requires small <= large
    ensures n * small <= n * large
  {}

  lemma Split(a: nat, b: nat, d: nat, forA: nat, forB: nat)
    requires d <= forA && d <= forB
    ensures Exact(a + b, d) <= Exact(a, forA) + Exact(b, forB)
  {
    Scaled(a, d, forA);
    Scaled(b, d, forB);
    assert (a + b) * d == a * d + b * d;
  }

  /** Splitting a multiplication into two is never cheaper. */
  lemma PriceIsSubadditive(table: seq<nat>, a: nat, b: nat)
    requires Falls(table)
    ensures Price(table, a + b) <= Price(table, a) + Price(table, b)
  {
    if a > 0 && b > 0 {
      DiscountsFall(table, a, a + b);
      DiscountsFall(table, b, a + b);
      Split(a, b, Discount(table, a + b), Discount(table, a), Discount(table, b));
    }
  }

  lemma RemainderPlusMultiple(q: nat, r: nat)
    ensures (q * U64_LIMIT + r) % U64_LIMIT == r % U64_LIMIT
  {}

  lemma WrapTwice(x: nat, c: nat)
    ensures x % U64_LIMIT * c % U64_LIMIT == x * c % U64_LIMIT
  {
    var q, r := x / U64_LIMIT, x % U64_LIMIT;
    assert x * c == (q * U64_LIMIT + r) * c == (q * c) * U64_LIMIT + r * c;
    RemainderPlusMultiple(q * c, r * c);
  }

  /** The u64 computation gives the exact price if and only if the product fits in a u64. */
  lemma ChargeIsExactIffItFits(k: nat, d: nat)
    ensures Charge(k, d) == Exact(k, d) <==> k * d * G1_MSM_GAS < U64_LIMIT
  {
    WrapTwice(k * d, G1_MSM_GAS);
  }

  lemma SmallCountsFit(table: seq<nat>, k: nat)
    requires Falls(table) && k < U32_LIMIT
    ensures MsmRequiredGas(table, k) == Price(table, k)
  {
    if k > 0 {
      DiscountStep(table, k);
      Scaled(k, Discount(table, k), 1000);
      ChargeIsExactIffItFits(k, Discount(table, k));
    }
  }

  lemma Row0Falls()
    ensures forall i :: 0 <= i < 16 ==> Falling(DISCOUNT_TABLE_G1_MSM, i)
  {}

  lemma Row1Falls()
    ensures forall i :: 16 <= i < 32 ==> Falling(DISCOUNT_TABLE_G1_MSM, i)
  {}

  lemma Row2Falls()
    ensures forall i :: 32 <= i < 48 ==> Falling(DISCOUNT_TABLE_G1_MSM, i)
  {}

  lemma Row3Falls()
    ensures forall i :: 48 <= i < 64 ==> Falling(DISCOUNT_TABLE_G1_MSM, i)
  {}

  lemma Row4Falls()
    ensures forall i :: 64 <= i < 80 ==> Falling(DISCOUNT_TABLE_G1_MSM, i)
  {}

  lemma Row5Falls()
    ensures forall i :: 80 <= i < 96 ==> Falling(DISCOUNT_TABLE_G1_MSM, i)
  {}

  lemma Row6Falls()
    ensures forall i :: 96 <= i < 112 ==> Falling(DISCOUNT_TABLE_G1_MSM, i)
  {}

  lemma Row7Falls()
    ensures forall i :: 112 <= i < 127 ==> Falling(DISCOUNT_TABLE_G1_MSM, i)
  {}

  lemma TableFalls()
    ensures Falls(DISCOUNT_TABLE_G1_MSM) && |DISCOUNT_TABLE_G1_MSM| == 128
  {
    Row0Falls();
    Row1Falls();
    Row2Falls();
    Row3Falls();
    Row4Falls();
    Row5Falls();
    Row6Falls();
    Row7Falls();
  }

  /**
   For all numbers of pairs that an input with a u32 length can hold, no product wraps around, gas is
   strictly increasing, and it is subadditive.
   */
  lemma MsmGasLaws(a: nat, b: nat)
    requires a + b < U32_LIMIT
    ensures var table := DISCOUNT_TABLE_G1_MSM;
            && MsmRequiredGas(table, a) == Price(table, a)
            && (a < b ==> MsmRequiredGas(table, a) < MsmRequiredGas(table, b))
            && MsmRequiredGas(table, a + b) <= MsmRequiredGas(table, a) + MsmRequiredGas(table, b)
  {
    TableFalls();
    GasLaws(DISCOUNT_TABLE_G1_MSM, a, b);
  }

  lemma GasLaws(table: seq<nat>, a: nat, b: nat)
    requires Falls(table) && a + b < U32_LIMIT
    ensures MsmRequiredGas(table, a) == Price(table, a)
    ensures a < b ==> MsmRequiredGas(table, a) < MsmRequiredGas(table, b)
    ensures MsmRequiredGas(table, a + b) <= MsmRequiredGas(table, a) + MsmRequiredGas(table, b)
  {
    SmallCountsFit(table, a);
    SmallCountsFit(table, b);
    SmallCountsFit(table, a + b);
    PriceIsSubadditive(table, a, b);
    if a < b { PriceIncreases(table, a, b); }
  }

  /**
   What the price is, without the code's own definitions: twelve times the number of pairs times its row
   of the table, the last row for everything beyond it; one pair costs 12000.
   */
  lemma MsmGasFormula(k: nat)
    requires k < U32_LIMIT
    ensures var table, gas := DISCOUNT_TABLE_G1_MSM, MsmRequiredGas(DISCOUNT_TABLE_G1_MSM, k);
            && |table| == 128 && table[0] == 1000 && table[127] == 519
            && (k == 0 ==> gas == 0)
            && (1 <= k <= 128 ==> gas == 12 * (k * table[k - 1]))
            && (128 <= k ==> gas == 12 * (k * 519))
            && (k == 1 ==> gas == 12000)
  {
    TableFalls();
    SmallCountsFit(DISCOUNT_TABLE_G1_MSM, k);
    TableEnds();
  }

  lemma TableEnds()
    ensures |DISCOUNT_TABLE_G1_MSM| == 128 && DISCOUNT_TABLE_G1_MSM[0] == 1000 && DISCOUNT_TABLE_G1_MSM[127] == 519
  {}
}
