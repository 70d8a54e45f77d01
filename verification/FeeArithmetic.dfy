/** Fee amounts in USDC raw units: the quote for an operation and the gross-up of the gasless shield tiers. */
module FeeArithmetic {
  import opened Wrappers

  const FEE_FLOOR_USDC_RAW: nat := 10_000
  const USDC_UNIT: nat := 1_000_000
  const PRICE_SCALE: nat := 1_000_000
  const WEI_PER_ETH: nat := 1_000_000_000_000_000_000

  /** priceScaled is the ETH price in millionths of a dollar. */
  function GasCostUsdc(gasEstimate: nat, gasPriceWei: nat, priceScaled: nat): nat {
    (gasEstimate * gasPriceWei * priceScaled * USDC_UNIT) / (WEI_PER_ETH * PRICE_SCALE)
  }

  function WithMargin(gasCostUsdc: nat, marginBps: nat): nat { gasCostUsdc * (10_000 + marginBps) / 10_000 }

  function ComputeFeeUsdcRaw(gasEstimate: nat, gasPriceWei: nat, priceScaled: nat, marginBps: nat): nat {
    Max(WithMargin(GasCostUsdc(gasEstimate, gasPriceWei, priceScaled), marginBps), FEE_FLOOR_USDC_RAW)
  }

  lemma MulMonotone(a: nat, b: nat, c: nat, d: nat)
    requires a <= b && c <= d
    ensures a * c <= b * d
  {
    assert a * c <= b * c <= b * d;
  }

  lemma DivBounds(a: nat, d: nat)
    requires d > 0
    ensures (a / d) * d <= a < (a / d) * d + d
  {
    assert a == (a / d) * d + a % d;
  }

  lemma DivMonotone(a: nat, b: nat, d: nat)
    requires a <= b && d > 0
    ensures a / d <= b / d
  {
    DivBounds(a, d);
    DivBounds(b, d);
    assert (b / d + 1) * d == (b / d) * d + d;
    var least: nat := Min(a / d, b / d + 1);
    MulMonotone(least, a / d, d, d);
  }

  /** More gas, a higher gas price, a higher ETH price or a larger margin never lowers the fee. */
  lemma FeeIsMonotone(gas: nat, gas': nat, gasPrice: nat, gasPrice': nat, price: nat, price': nat, margin: nat, margin': nat)
    requires gas <= gas' && gasPrice <= gasPrice' && price <= price' && margin <= margin'
    ensures FEE_FLOOR_USDC_RAW <= ComputeFeeUsdcRaw(gas, gasPrice, price, margin)
         <= ComputeFeeUsdcRaw(gas', gasPrice', price', margin')
  {
    MulMonotone(gas, gas', gasPrice, gasPrice');
    MulMonotone(gas * gasPrice, gas' * gasPrice', price, price');
    MulMonotone(gas * gasPrice * price, gas' * gasPrice' * price', USDC_UNIT, USDC_UNIT);
    DivMonotone(gas * gasPrice * price * USDC_UNIT, gas' * gasPrice' * price' * USDC_UNIT, WEI_PER_ETH * PRICE_SCALE);
    var c, c' := GasCostUsdc(gas, gasPrice, price), GasCostUsdc(gas', gasPrice', price');
    MulMonotone(c, c', 10_000 + margin, 10_000 + margin');
    DivMonotone(c * (10_000 + margin), c' * (10_000 + margin'), 10_000);
  }

  /**
   * Before the floor is applied, the two integer divisions lose less than 1 + (10000 + margin) / 10000 raw
   * units of the exact amount gas * gasPrice * price * 1e6 / (1e18 * 1e6) * (10000 + margin) / 10000. Both sides
   * are multiplied out by the denominators.
   */
  lemma RoundingLoss(gas: nat, gasPrice: nat, price: nat, margin: nat)
    ensures var fee := WithMargin(GasCostUsdc(gas, gasPrice, price), margin);
            var unit := WEI_PER_ETH * PRICE_SCALE;
            var exact := gas * gasPrice * price * USDC_UNIT * (10_000 + margin);
            fee * unit * 10_000 <= exact < (fee * 10_000 + 10_000 + (10_000 + margin)) * unit
  {
    var wei := gas * gasPrice * price * USDC_UNIT;
    var unit := WEI_PER_ETH * PRICE_SCALE;
    LossOfTwoDivisions(wei, unit, 10_000 + margin, 10_000);
  }

  /**
   * The whole fee, in raw units of 1e-6 dollars, for a price in millionths of a dollar: a cent at least; above a cent
   * it never exceeds the exact amount gas * gasPrice * price / 1e18 * (10000 + margin) / 10000, and it falls short
   * of that amount by less than 2 + margin / 10000 units.
   */
  lemma FeeTracksGas(gas: nat, gasPrice: nat, price: nat, margin: nat)
    ensures var fee := ComputeFeeUsdcRaw(gas, gasPrice, price, margin);
            var exact := gas * gasPrice * price * (10_000 + margin);
            && 10_000 <= fee
            && (10_000 < fee ==> fee * 10_000 * 1_000_000_000_000_000_000 <= exact)
            && exact < (fee * 10_000 + 20_000 + margin) * 1_000_000_000_000_000_000
  {
    var fee := WithMargin(GasCostUsdc(gas, gasPrice, price), margin);
    var wei, m, ether: nat := gas * gasPrice * price, 10_000 + margin, 1_000_000_000_000_000_000;
    RoundingLoss(gas, gasPrice, price, margin);
    assert fee * (ether * 1_000_000) * 10_000 == fee * 10_000 * ether * 1_000_000;
    Swap(wei, 1_000_000, m);
    var above: nat := fee * 10_000 + 20_000 + margin;
    assert above * (ether * 1_000_000) == above * ether * 1_000_000;
    MulMonotone(above, ComputeFeeUsdcRaw(gas, gasPrice, price, margin) * 10_000 + 20_000 + margin, ether, ether);
  }

  lemma LossOfTwoDivisions(x: nat, u: nat, m: nat, d: nat)
    requires u > 0 && m > 0 && d > 0
    ensures var fee := (x / u) * m / d;
            fee * u * d <= x * m < (fee * d + d + m) * u
  {
    var c := x / u;
    var fee := c * m / d;
    DivBounds(x, u);
    DivBounds(c * m, d);
    assert (fee * d) * u <= (c * m) * u by { MulMonotone(fee * d, c * m, u, u); }
    assert (c * m) * u == (c * u) * m by { Swap(c, m, u); }
    assert (c * u) * m <= x * m by { MulMonotone(c * u, x, m, m); }
    assert fee * u * d == (fee * d) * u by { Swap(fee, u, d); }
    assert x * m <= (c * u + u - 1) * m by { MulMonotone(x, c * u + u - 1, m, m); }
    Grow(c, u, m);
    assert (c * m + m) * u <= (fee * d + d - 1 + m) * u by { MulMonotone(c * m + m, fee * d + d - 1 + m, u, u); }
    Grow2(fee * d + d + m, u);
  }

  lemma Swap(a: nat, b: nat, c: nat)
    ensures a * b * c == a * c * b
  {
  }

  lemma Grow(c: nat, u: nat, m: nat)
    requires u > 0
    ensures (c * u + u - 1) * m <= (c * m + m) * u
  {
    assert (c * u + u - 1) * m == (c * u + u) * m - m;
    assert (c * u + u) * m == (c + 1) * u * m;
    assert (c * m + m) * u == (c + 1) * m * u;
    Swap(c + 1, u, m);
  }

  lemma Grow2(k: nat, u: nat)
    requires k > 0 && u > 0
    ensures (k - 1) * u < k * u
  {
    assert k * u == (k - 1) * u + u;
  }

  // ----- gross-up -----

  /** None when the division by 10000 - bps throws. */
  function GrossUpForShieldFee(net: nat, shieldFeeBps: nat): Option<int> {
    if shieldFeeBps == 0 then Some(net)
    else
      var denom := 10_000 - shieldFeeBps;
      if denom == 0 then None else Some(TruncDiv(net * 10_000 + denom - 1, denom))
  }

  /** bigint division truncates toward zero. */
  function TruncDiv(a: int, b: int): int
    requires b != 0
  {
    if a >= 0 && b > 0 then a / b
    else if a < 0 && b > 0 then -((-a) / b)
    else if a >= 0 then -(a / (-b))
    else (-a) / (-b)
  }

  /** What is left of a fee note after the pool's floored shield fee. */
  function NetOf(value: nat, shieldFeeBps: nat): int { value - value * shieldFeeBps / 10_000 }

  /** The gross-up is the least value whose share of 10000 - bps covers the net. */
  lemma GrossUpIsLeast(net: nat, bps: nat)
    requires 0 < bps < 10_000
    ensures var g := GrossUpForShieldFee(net, bps).value;
            && g >= 0 && g * (10_000 - bps) >= net * 10_000
            && (g > 0 ==> (g - 1) * (10_000 - bps) < net * 10_000)
  {
    var d := 10_000 - bps;
    var a := net * 10_000 + d - 1;
    DivBounds(a, d);
    var g := a / d;
    assert GrossUpForShieldFee(net, bps) == Some(g);
    assert (g - 1) * d == g * d - d;
  }

  lemma NetFromShare(g: nat, bps: nat)
    requires bps < 10_000
    ensures g * (10_000 - bps) <= NetOf(g, bps) * 10_000 < g * (10_000 - bps) + 10_000
  {
    DivBounds(g * bps, 10_000);
    assert g * (10_000 - bps) == g * 10_000 - g * bps;
  }

  /** After the shield fee is taken from the grossed-up note, the relayer has the net or one unit more. */
  lemma GrossUpKeepsWhole(net: nat, bps: nat)
    requires bps < 10_000
    ensures GrossUpForShieldFee(net, bps).Some? && GrossUpForShieldFee(net, bps).value >= 0
    ensures var left := NetOf(GrossUpForShieldFee(net, bps).value, bps); left == net || left == net + 1
  {
    if bps > 0 {
      GrossUpIsLeast(net, bps);
      var g := GrossUpForShieldFee(net, bps).value;
      NetFromShare(g, bps);
      assert (g - 1) * (10_000 - bps) == g * (10_000 - bps) - (10_000 - bps);
    } else {
      assert NetOf(net, 0) == net;
    }
  }

  /** A larger note never leaves less after the fee. */
  lemma NetIsMonotone(v: nat, w: nat, bps: nat)
    requires v <= w && bps <= 10_000
    ensures NetOf(v, bps) <= NetOf(w, bps)
  {
    DivBounds(v * bps, 10_000);
    DivBounds(w * bps, 10_000);
    MulMonotone(v, w, 10_000 - bps, 10_000 - bps);
    assert v * (10_000 - bps) == v * 10_000 - v * bps;
    assert w * (10_000 - bps) == w * 10_000 - w * bps;
  }

  /**
   * The gross-up does its job exactly for fees below 100%: at 10000 bps it throws, and above that the
   * quote is not positive, so a note at the quoted value leaves less than any positive net.
   */
  lemma GrossUpWorksExactly(net: nat, bps: nat)
    requires net > 0
    ensures bps < 10_000 <==>
            var g := GrossUpForShieldFee(net, bps); g.Some? && g.value >= 0 && NetOf(g.value, bps) >= net
  {
    if bps < 10_000 {
      GrossUpKeepsWhole(net, bps);
    } else if bps > 10_000 {
      var d := 10_000 - bps;
      var a := net * 10_000 + d - 1;
      var g := GrossUpForShieldFee(net, bps).value;
      assert g == TruncDiv(a, d);
      if g > 0 {
        NetAboveHundredPercent(g, bps);
      }
    }
  }

  lemma NetAboveHundredPercent(g: nat, bps: nat)
    requires bps >= 10_000
    ensures NetOf(g, bps) <= 0
  {
    MulMonotone(g, g, 10_000, bps);
    DivMonotone(g * 10_000, g * bps, 10_000);
    assert g * 10_000 / 10_000 == g;
  }
}
