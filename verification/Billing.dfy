/**
 Discounts and invoices (server/src/billing.js). Money is whole cents; percentages and fixed dollar amounts
 are real numbers, rounded to cents as Math.round does.
 */
module Billing {
  import opened Wrappers

  /** Math.round: to the nearest integer, halves upwards. */
  function Round(x: real): int {
    (x + 0.5).Floor
  }

  function ToCents(dollars: real): int {
    Round(dollars * 100.0)
  }

  datatype Terms =
    | Percentage(value: real)
    | Fixed(dollars: real)
    | UsageTier(thresholdCalls: real, percentage: real)

  /** `expiresAt` is None when it is missing or not a date. */
  datatype Discount = Discount(id: string, terms: Terms, expiresAt: Option<int>)

  // ---- Normalising a discount ----

  /** The request body; a number that is missing or not finite is None. */
  datatype RawDiscount = RawDiscount(
    id: string, kind: string, value: Option<real>, thresholdCalls: Option<real>, percentage: Option<real>,
    expiresAt: Option<int>)

  datatype BillingError = UnknownType | BadPercentage | BadFixed | BadThreshold | BadTierPercentage

  predicate ValidTerms(terms: Terms) {
    match terms
    case Percentage(value) => 0.0 <= value <= 100.0
    case Fixed(dollars) => 0.0 <= dollars
    case UsageTier(threshold, percentage) => 0.0 <= threshold && 0.0 <= percentage <= 100.0
  }

  predicate AllValid(discounts: seq<Discount>) {
    forall i :: 0 <= i < |discounts| ==> ValidTerms(discounts[i].terms)
  }

  /** The terms a request asks for, if it names a known type and all its numbers. */
  function RequestedTerms(raw: RawDiscount): Option<Terms> {
    if raw.kind in {"", "percentage"} && raw.value.Some? then Some(Percentage(raw.value.value))
    else if raw.kind == "fixed" && raw.value.Some? then Some(Fixed(raw.value.value))
    else if raw.kind == "usage_tier" && raw.thresholdCalls.Some? && raw.percentage.Some? then
      Some(UsageTier(raw.thresholdCalls.value, raw.percentage.value))
    else None
  }

  /** Exactly the requests get through whose terms the arithmetic can rely on, and they get those terms. */
  function NormalizeDiscount(raw: RawDiscount): (r: Result<Discount, BillingError>)
    ensures r.Ok? <==> RequestedTerms(raw).Some? && ValidTerms(RequestedTerms(raw).value)
    ensures r.Ok? ==> r.value == Discount(raw.id, RequestedTerms(raw).value, raw.expiresAt)
    ensures raw.kind == "" || raw.kind == "percentage" ==>
      && (r.Ok? <==> raw.value.Some? && 0.0 <= raw.value.value <= 100.0)
      && (r.Ok? ==> r.value.terms == Percentage(raw.value.value))
    ensures raw.kind == "fixed" ==>
      && (r.Ok? <==> raw.value.Some? && 0.0 <= raw.value.value)
      && (r.Ok? ==> r.value.terms == Fixed(raw.value.value))
    ensures raw.kind == "usage_tier" ==>
      && (r.Ok? <==> raw.thresholdCalls.Some? && 0.0 <= raw.thresholdCalls.value
                     && raw.percentage.Some? && 0.0 <= raw.percentage.value <= 100.0)
      && (r.Ok? ==> r.value.terms == UsageTier(raw.thresholdCalls.value, raw.percentage.value))
    ensures r.Ok? ==> raw.kind in {"", "percentage", "fixed", "usage_tier"}
  {
    var kind := if raw.kind == "" then "percentage" else raw.kind;
    if kind == "percentage" then
      if raw.value.None? || raw.value.value < 0.0 || raw.value.value > 100.0 then Err(BadPercentage)
      else Ok(Discount(raw.id, Percentage(raw.value.value), raw.expiresAt))
    else if kind == "fixed" then
      if raw.value.None? || raw.value.value < 0.0 then Err(BadFixed)
      else Ok(Discount(raw.id, Fixed(raw.value.value), raw.expiresAt))
    else if kind == "usage_tier" then
      if raw.thresholdCalls.None? || raw.thresholdCalls.value < 0.0 then Err(BadThreshold)
      else if raw.percentage.None? || raw.percentage.value < 0.0 || raw.percentage.value > 100.0 then
        Err(BadTierPercentage)
      else Ok(Discount(raw.id, UsageTier(raw.thresholdCalls.value, raw.percentage.value), raw.expiresAt))
    else Err(UnknownType)
  }

  // ---- The discount chain ----

  function Min(a: int, b: int): int {
    if a < b then a else b
  }

  function Share(amount: int, percentage: real): int {
    Round(amount as real * percentage / 100.0)
  }

  /** What one discount takes off, never more than the amount. */
  function Reduction(terms: Terms, amount: int): int {
    var reduction :=
      match terms
      case Percentage(value) => Share(amount, value)
      case Fixed(dollars) => ToCents(dollars)
      case UsageTier(_, percentage) => Share(amount, percentage);
    Min(reduction, amount)
  }

  function Discounted(amount: int, d: Discount): int {
    amount - Reduction(d.terms, amount)
  }

  /** The amount left by the discounts, taken in order. */
  function Chain(amount: int, discounts: seq<Discount>): int
    decreases discounts
  {
    if discounts == [] then amount else Chain(Discounted(amount, discounts[0]), discounts[1..])
  }

  datatype Applied = Applied(id: string, terms: Terms, reductionCents: int)

  /** What each discount takes off, given what the earlier ones left. */
  function Steps(amount: int, discounts: seq<Discount>): seq<Applied>
    decreases discounts
  {
    if discounts == [] then []
    else
      var d := discounts[0];
      [Applied(d.id, d.terms, amount - Discounted(amount, d))] + Steps(Discounted(amount, d), discounts[1..])
  }

  function TotalReduction(applied: seq<Applied>): int {
    if applied == [] then 0 else applied[0].reductionCents + TotalReduction(applied[1..])
  }

  method ApplyDiscountsToAmount(amountCents: int, discounts: seq<Discount>)
    returns (amount: int, applied: seq<Applied>)
    ensures amount == Chain(amountCents, discounts)
    ensures applied == Steps(amountCents, discounts)
  {
    amount, applied := amountCents, [];
    for k := 0 to |discounts|
      invariant Chain(amount, discounts[k..]) == Chain(amountCents, discounts)
      invariant applied + Steps(amount, discounts[k..]) == Steps(amountCents, discounts)
    {
      var d := discounts[k];
      var reduction := Reduction(d.terms, amount);
      assert discounts[k..][1..] == discounts[k + 1..];
      ghost var was := amount;
      amount := amount - reduction;
      assert amount == Discounted(was, d);
      applied := applied + [Applied(d.id, d.terms, reduction)];
    }
  }

  /** The reductions account for the difference, to the cent. */
  lemma {:induction false} StepsAddUp(amount: int, discounts: seq<Discount>)
    ensures amount - TotalReduction(Steps(amount, discounts)) == Chain(amount, discounts)
    decreases discounts
  {
    if discounts != [] {
      var d := discounts[0];
      StepsAddUp(Discounted(amount, d), discounts[1..]);
      assert Steps(amount, discounts)[1..] == Steps(Discounted(amount, d), discounts[1..]);
    }
  }

  lemma {:induction false} ChainConcat(amount: int, a: seq<Discount>, b: seq<Discount>)
    ensures Chain(amount, a + b) == Chain(Chain(amount, a), b)
    decreases a
  {
    if a == [] {
      assert a + b == b;
    } else {
      ChainConcat(Discounted(amount, a[0]), a[1..], b);
      assert (a + b)[1..] == a[1..] + b;
    }
  }

  // ---- One discount ----

  /** Rounding is monotone, and commutes with adding whole cents. */
  lemma RoundShift(x: real, y: real, n: int)
    requires x <= y + n as real
    ensures Round(x) <= Round(y) + n
  {
  }

  lemma ShareBounds(amount: nat, percentage: real)
    requires 0.0 <= percentage <= 100.0
    ensures 0 <= Share(amount, percentage) <= amount
  {
    assert 0.0 <= amount as real * percentage <= amount as real * 100.0;
  }

  /** The share of a larger amount is larger by at most the difference. */
  lemma ShareGrows(a: int, b: int, percentage: real)
    requires a <= b && 0.0 <= percentage <= 100.0
    ensures Share(b, percentage) <= Share(a, percentage) + (b - a)
  {
    var x, y := a as real * percentage / 100.0, b as real * percentage / 100.0;
    var gap := (b - a) as real;
    assert b as real == a as real + gap;
    assert y == x + gap * percentage / 100.0;
    assert gap * percentage <= gap * 100.0;
    RoundShift(y, x, b - a);
  }

  /** One discount keeps the order of amounts, for negative amounts too. */
  lemma DiscountedMonotone(a: int, b: int, d: Discount)
    requires a <= b && ValidTerms(d.terms)
    ensures 0 <= Discounted(a, d) <= Discounted(b, d)
  {
    match d.terms
    case Percentage(value) => ShareGrows(a, b, value);
    case Fixed(_) =>
    case UsageTier(_, percentage) => ShareGrows(a, b, percentage);
  }

  lemma DiscountedInRange(amount: nat, d: Discount)
    requires ValidTerms(d.terms)
    ensures 0 <= Discounted(amount, d) <= amount
  {
    match d.terms
    case Percentage(value) => ShareBounds(amount, value);
    case Fixed(_) =>
    case UsageTier(_, percentage) => ShareBounds(amount, percentage);
  }

  // ---- The whole chain ----

  /** The total lies between nothing and the subtotal, exactly when the subtotal is not negative. */
  lemma TotalInRange(subtotal: int, discounts: seq<Discount>)
    requires AllValid(discounts)
    ensures 0 <= Chain(subtotal, discounts) <= subtotal <==> 0 <= subtotal
  {
    if 0 <= subtotal {
      ChainInRange(subtotal, discounts);
    }
  }

  lemma {:induction false} ChainInRange(amount: nat, discounts: seq<Discount>)
    requires AllValid(discounts)
    ensures 0 <= Chain(amount, discounts) <= amount
    decreases discounts
  {
    if discounts != [] {
      DiscountedInRange(amount, discounts[0]);
      ChainInRange(Discounted(amount, discounts[0]), discounts[1..]);
    }
  }

  /** A larger subtotal never gives a smaller total. */
  lemma {:induction false} ChainMonotone(a: int, b: int, discounts: seq<Discount>)
    requires a <= b && AllValid(discounts)
    ensures Chain(a, discounts) <= Chain(b, discounts)
    decreases discounts
  {
    if discounts != [] {
      DiscountedMonotone(a, b, discounts[0]);
      ChainMonotone(Discounted(a, discounts[0]), Discounted(b, discounts[0]), discounts[1..]);
    }
  }

  /** The first discount lifts a negative amount to zero, and there it stays. */
  lemma NegativeChainIsZero(amount: int, discounts: seq<Discount>)
    requires amount < 0 && AllValid(discounts) && discounts != []
    ensures Discounted(amount, discounts[0]) == 0 && Chain(amount, discounts) == 0
  {
    DiscountedMonotone(amount, 0, discounts[0]);
    DiscountedInRange(0, discounts[0]);
    ChainInRange(0, discounts[1..]);
  }

  lemma InsertNeverRaisesNat(amount: nat, before: seq<Discount>, d: Discount, after: seq<Discount>)
    requires AllValid(before) && ValidTerms(d.terms) && AllValid(after)
    ensures Chain(amount, before + [d] + after) <= Chain(amount, before + after)
  {
    var reached := Chain(amount, before);
    ChainInRange(amount, before);
    DiscountedInRange(reached, d);
    ChainMonotone(Discounted(reached, d), reached, after);
    ChainConcat(amount, before, after);
    ChainConcat(amount, before + [d], after);
    ChainConcat(amount, before, [d]);
  }

  /**
   Another discount, at any place in the chain, never raises the total, exactly when the amount is not negative
   or another discount is there already: the first one lifts a negative amount to zero.
   */
  lemma InsertNeverRaises(amount: int, before: seq<Discount>, d: Discount, after: seq<Discount>)
    requires AllValid(before) && ValidTerms(d.terms) && AllValid(after)
    ensures Chain(amount, before + [d] + after) <= Chain(amount, before + after)
       <==> amount >= 0 || before + after != []
  {
    if amount >= 0 {
      InsertNeverRaisesNat(amount, before, d, after);
    } else {
      NegativeChainIsZero(amount, before + [d] + after);
      if before + after != [] {
        NegativeChainIsZero(amount, before + after);
      }
    }
  }

  // ---- Against exact arithmetic ----

  function RealMin(a: real, b: real): real {
    if a < b then a else b
  }

  function ExactReduction(terms: Terms, amount: real): real {
    var reduction :=
      match terms
      case Percentage(value) => amount * value / 100.0
      case Fixed(dollars) => dollars * 100.0
      case UsageTier(_, percentage) => amount * percentage / 100.0;
    RealMin(reduction, amount)
  }

  /** The same chain with no rounding anywhere. */
  function ExactChain(amount: real, discounts: seq<Discount>): real
    decreases discounts
  {
    if discounts == [] then amount
    else ExactChain(ExactlyDiscounted(amount, discounts[0]), discounts[1..])
  }

  function Distance(x: real, y: real): real {
    if x < y then y - x else x - y
  }

  lemma ScaledDistance(x: real, y: real, percentage: real)
    requires 0.0 <= percentage <= 100.0
    ensures Distance(x - x * percentage / 100.0, y - y * percentage / 100.0) <= Distance(x, y)
  {
    var d := x - y;
    assert (x - x * percentage / 100.0) - (y - y * percentage / 100.0) == d - d * percentage / 100.0;
    if d >= 0.0 {
      assert 0.0 <= d * percentage <= d * 100.0;
    } else {
      assert 0.0 <= -d * percentage <= -d * 100.0;
    }
  }

  lemma ShareIsPart(x: real, percentage: real)
    requires 0.0 <= x && 0.0 <= percentage <= 100.0
    ensures 0.0 <= x * percentage / 100.0 <= x
  {
    assert 0.0 <= x * percentage <= x * 100.0;
  }

  /** Rounding one of two amounts taken off moves the distance by at most half. */
  lemma DriftOfParts(x: real, y: real, a: real, b: real, rounded: real)
    requires Distance(x - a, y - b) <= Distance(x, y) && Distance(rounded, a) <= 0.5
    ensures Distance(x - rounded, y - b) <= Distance(x, y) + 0.5
  {
  }

  lemma PercentageDrift(amount: nat, exact: real, p: real)
    requires 0.0 <= p <= 100.0
    ensures Distance(amount as real - Share(amount, p) as real, exact - exact * p / 100.0)
         <= Distance(amount as real, exact) + 0.5
  {
    var x, a := amount as real, amount as real * p / 100.0;
    RoundingError(a);
    ScaledDistance(x, exact, p);
    DriftOfParts(x, exact, a, exact * p / 100.0, Share(amount, p) as real);
  }

  lemma RoundingError(x: real)
    ensures Distance(Round(x) as real, x) <= 0.5
  {
  }

  lemma FixedDrift(amount: nat, exact: real, cents: real)
    requires 0.0 <= exact && 0.0 <= cents
    ensures 0.0 <= exact - RealMin(cents, exact)
    ensures Distance((amount - Min(Round(cents), amount)) as real, exact - RealMin(cents, exact))
         <= Distance(amount as real, exact) + 0.5
  {
    RoundingError(cents);
    CappedDistance(amount as real, exact, Round(cents) as real, cents);
  }

  /** Taking off capped amounts that differ by at most half moves the distance by at most half. */
  lemma CappedDistance(x: real, y: real, a: real, b: real)
    requires 0.0 <= x && 0.0 <= y && 0.0 <= b && Distance(a, b) <= 0.5
    ensures Distance(x - RealMin(a, x), y - RealMin(b, y)) <= Distance(x, y) + 0.5
  {
  }

  function ExactlyDiscounted(amount: real, d: Discount): real {
    amount - ExactReduction(d.terms, amount)
  }

  predicate TakesPercentage(terms: Terms, p: real) {
    terms == Percentage(p) || (terms.UsageTier? && terms.percentage == p)
  }

  lemma RoundedPercentage(amount: nat, d: Discount, p: real)
    requires TakesPercentage(d.terms, p) && 0.0 <= p <= 100.0
    ensures Discounted(amount, d) == amount - Share(amount, p)
  {
    ShareBounds(amount, p);
  }

  lemma ExactPercentage(exact: real, d: Discount, p: real)
    requires TakesPercentage(d.terms, p) && 0.0 <= p <= 100.0 && 0.0 <= exact
    ensures ExactlyDiscounted(exact, d) == exact - exact * p / 100.0
  {
    ShareIsPart(exact, p);
  }

  lemma PercentageStepDrift(amount: nat, exact: real, d: Discount, p: real)
    requires TakesPercentage(d.terms, p) && 0.0 <= p <= 100.0 && 0.0 <= exact
    ensures 0.0 <= ExactlyDiscounted(exact, d)
    ensures Distance(Discounted(amount, d) as real, ExactlyDiscounted(exact, d))
         <= Distance(amount as real, exact) + 0.5
  {
    RoundedPercentage(amount, d, p);
    ExactPercentage(exact, d, p);
    ShareIsPart(exact, p);
    PercentageDrift(amount, exact, p);
  }

  /** One rounded step drifts from the exact step by at most half a cent more. */
  lemma StepDrift(amount: nat, exact: real, d: Discount)
    requires ValidTerms(d.terms) && 0.0 <= exact
    ensures 0.0 <= ExactlyDiscounted(exact, d)
    ensures Distance(Discounted(amount, d) as real, ExactlyDiscounted(exact, d))
         <= Distance(amount as real, exact) + 0.5
  {
    match d.terms
    case Percentage(p) => PercentageStepDrift(amount, exact, d, p);
    case Fixed(dollars) => FixedDrift(amount, exact, dollars * 100.0);
    case UsageTier(_, p) => PercentageStepDrift(amount, exact, d, p);
  }

  lemma {:induction false} DriftAccumulates(amount: nat, exact: real, discounts: seq<Discount>)
    requires AllValid(discounts) && 0.0 <= exact
    ensures Distance(Chain(amount, discounts) as real, ExactChain(exact, discounts))
         <= Distance(amount as real, exact) + 0.5 * |discounts| as real
    decreases discounts
  {
    if discounts != [] {
      var d := discounts[0];
      StepDrift(amount, exact, d);
      DiscountedInRange(amount, d);
      DriftAccumulates(Discounted(amount, d), ExactlyDiscounted(exact, d), discounts[1..]);
    }
  }

  lemma NegativeIsLiftedExactly(exact: real, d: Discount)
    requires exact < 0.0 && ValidTerms(d.terms)
    ensures ExactlyDiscounted(exact, d) == 0.0
  {
    match d.terms
    case Percentage(p) => ShareIsPart(-exact, p);
    case Fixed(_) =>
    case UsageTier(_, p) => ShareIsPart(-exact, p);
  }

  /** Rounding moves the total by at most half a cent for each discount, whatever the sign of the subtotal. */
  lemma WithinHalfACentEach(subtotal: int, discounts: seq<Discount>)
    requires AllValid(discounts)
    ensures Distance(Chain(subtotal, discounts) as real, ExactChain(subtotal as real, discounts))
         <= 0.5 * |discounts| as real
  {
    if subtotal >= 0 {
      DriftAccumulates(subtotal, subtotal as real, discounts);
    } else if discounts != [] {
      NegativeChainIsZero(subtotal, discounts);
      NegativeIsLiftedExactly(subtotal as real, discounts[0]);
      DriftAccumulates(0, 0.0, discounts[1..]);
    }
  }

  // ---- Which discounts apply ----

  predicate IsActive(d: Discount, now: int, totalCalls: nat) {
    && !(d.expiresAt.Some? && d.expiresAt.value < now)
    && (d.terms.UsageTier? ==> totalCalls as real >= d.terms.thresholdCalls)
  }

  function ActiveDiscounts(discounts: seq<Discount>, now: int, totalCalls: nat): seq<Discount> {
    if discounts == [] then []
    else
      (if IsActive(discounts[0], now, totalCalls) then [discounts[0]] else [])
      + ActiveDiscounts(discounts[1..], now, totalCalls)
  }

  lemma ActiveFirst(discounts: seq<Discount>, d: Discount, rest: seq<Discount>, now: int, totalCalls: nat)
    requires discounts == [d] + rest
    ensures ActiveDiscounts(discounts, now, totalCalls)
         == (if IsActive(d, now, totalCalls) then [d] else []) + ActiveDiscounts(rest, now, totalCalls)
  {
    assert discounts[1..] == rest;
  }

  lemma {:induction false} ActiveConcat(a: seq<Discount>, b: seq<Discount>, now: int, totalCalls: nat)
    ensures ActiveDiscounts(a + b, now, totalCalls)
         == ActiveDiscounts(a, now, totalCalls) + ActiveDiscounts(b, now, totalCalls)
  {
    if a == [] {
      assert a + b == b;
    } else {
      ActiveConcat(a[1..], b, now, totalCalls);
      var d, rest := a[0], a[1..];
      ActiveFirst(a, d, rest, now, totalCalls);
      ActiveFirst(a + b, d, rest + b, now, totalCalls);
    }
  }

  lemma {:induction false} ActiveValid(discounts: seq<Discount>, now: int, totalCalls: nat)
    requires AllValid(discounts)
    ensures AllValid(ActiveDiscounts(discounts, now, totalCalls))
  {
    if discounts != [] {
      ActiveValid(discounts[1..], now, totalCalls);
    }
  }

  /**
   Granting a customer one more discount never raises what a period costs, exactly when the subtotal is not
   negative, another discount is active, or the new one is not.
   */
  lemma GrantNeverRaisesTotal(subtotal: int, discounts: seq<Discount>, d: Discount, now: int, totalCalls: nat)
    requires AllValid(discounts) && ValidTerms(d.terms)
    ensures
      var active := ActiveDiscounts(discounts, now, totalCalls);
      Chain(subtotal, ActiveDiscounts(discounts + [d], now, totalCalls)) <= Chain(subtotal, active)
      <==>
      subtotal >= 0 || active != [] || !IsActive(d, now, totalCalls)
  {
    var active := ActiveDiscounts(discounts, now, totalCalls);
    ActiveConcat(discounts, [d], now, totalCalls);
    ActiveFirst([d], d, [], now, totalCalls);
    ActiveValid(discounts, now, totalCalls);
    if IsActive(d, now, totalCalls) {
      assert ActiveDiscounts(discounts + [d], now, totalCalls) == active + [d] + [];
      assert active + [] == active;
      InsertNeverRaises(subtotal, active, d, []);
    } else {
      assert ActiveDiscounts(discounts + [d], now, totalCalls) == active;
    }
  }

  // ---- What a discount takes off, and which ones do ----

  /** The whole number nearest to x, the larger of two. */
  predicate IsNearest(n: int, x: real) {
    n as real - 0.5 <= x < n as real + 0.5
  }

  lemma RoundIsNearest(x: real, n: int)
    ensures IsNearest(n, x) <==> n == Round(x)
  {
  }

  /** The cents nearest to a percentage of the amount or to the fixed dollars, but no more than the amount. */
  predicate TakesOff(terms: Terms, amount: int, reduction: int) {
    var exact :=
      match terms
      case Percentage(value) => amount as real * value / 100.0
      case Fixed(dollars) => dollars * 100.0
      case UsageTier(_, percentage) => amount as real * percentage / 100.0;
    && reduction <= amount
    && (reduction < amount ==> IsNearest(reduction, exact))
    && (reduction == amount ==> exact >= reduction as real - 0.5)
  }

  lemma ReductionTakesOff(terms: Terms, amount: int, reduction: int)
    ensures TakesOff(terms, amount, reduction) <==> reduction == Reduction(terms, amount)
  {
    match terms
    case Percentage(value) => CappedNearest(amount as real * value / 100.0, amount, reduction);
    case Fixed(dollars) => CappedNearest(dollars * 100.0, amount, reduction);
    case UsageTier(_, percentage) => CappedNearest(amount as real * percentage / 100.0, amount, reduction);
  }

  lemma CappedNearest(exact: real, amount: int, reduction: int)
    ensures reduction == Min(Round(exact), amount) <==>
      && reduction <= amount
      && (reduction < amount ==> IsNearest(reduction, exact))
      && (reduction == amount ==> exact >= reduction as real - 0.5)
  {
    RoundIsNearest(exact, reduction);
  }

  /** Each discount takes its part off what the ones before it left: `left[k]` remains after k of them. */
  predicate TakenInTurn(discounts: seq<Discount>, applied: seq<Applied>, left: seq<int>) {
    && |applied| == |discounts| && |left| == |discounts| + 1
    && forall k :: 0 <= k < |discounts| ==>
      && applied[k].id == discounts[k].id && applied[k].terms == discounts[k].terms
      && applied[k].reductionCents == left[k] - left[k + 1]
      && TakesOff(discounts[k].terms, left[k], applied[k].reductionCents)
  }

  /** The amount ends as the total once every discount has taken its part. */
  ghost predicate IsDiscounted(amount: int, discounts: seq<Discount>, applied: seq<Applied>, total: int) {
    exists left :: TakenInTurn(discounts, applied, left) && left[0] == amount && left[|discounts|] == total
  }

  lemma OneTakenFirst(
    d: Discount, others: seq<Discount>, first: Applied, applied: seq<Applied>, amount: int, left: seq<int>)
    requires TakenInTurn(others, applied, left)
    requires first == Applied(d.id, d.terms, amount - left[0]) && TakesOff(d.terms, amount, amount - left[0])
    ensures TakenInTurn([d] + others, [first] + applied, [amount] + left)
  {
    var all, taken, amounts := [d] + others, [first] + applied, [amount] + left;
    forall k | 0 <= k < |all|
      ensures taken[k].id == all[k].id && taken[k].terms == all[k].terms
      ensures taken[k].reductionCents == amounts[k] - amounts[k + 1]
      ensures TakesOff(all[k].terms, amounts[k], taken[k].reductionCents)
    {
      if k > 0 {
        assert taken[k] == applied[k - 1] && all[k] == others[k - 1];
        assert amounts[k] == left[k - 1] && amounts[k + 1] == left[k];
      }
    }
  }

  lemma StepsFirst(amount: int, discounts: seq<Discount>, next: int)
    requires discounts != [] && next == Discounted(amount, discounts[0])
    ensures discounts == [discounts[0]] + discounts[1..]
    ensures Steps(amount, discounts)
         == [Applied(discounts[0].id, discounts[0].terms, amount - next)] + Steps(next, discounts[1..])
    ensures Chain(amount, discounts) == Chain(next, discounts[1..])
    ensures TakesOff(discounts[0].terms, amount, amount - next)
  {
    ReductionTakesOff(discounts[0].terms, amount, amount - next);
  }

  lemma {:induction false} ChainTakesInTurn(
    amount: int, discounts: seq<Discount>, applied: seq<Applied>, total: int)
    returns (left: seq<int>)
    requires applied == Steps(amount, discounts) && total == Chain(amount, discounts)
    ensures TakenInTurn(discounts, applied, left) && left[0] == amount && left[|discounts|] == total
    decreases discounts
  {
    if discounts == [] {
      left := [amount];
    } else {
      var d, others, next := discounts[0], discounts[1..], Discounted(amount, discounts[0]);
      StepsFirst(amount, discounts, next);
      var taken := Steps(next, others);
      var rest := ChainTakesInTurn(next, others, taken, total);
      OneTakenFirst(d, others, Applied(d.id, d.terms, amount - next), taken, amount, rest);
      left := [amount] + rest;
    }
  }

  /** The discount has not expired, and if it is for much use the calls reach its threshold. */
  predicate Applies(d: Discount, now: int, totalCalls: nat) {
    && (d.expiresAt.None? || now <= d.expiresAt.value)
    && (d.terms.UsageTier? ==> d.terms.thresholdCalls <= totalCalls as real)
  }

  /** The active discounts are those that apply, in the order they were granted. */
  lemma ActiveIs(a: seq<Discount>, d: Discount, b: seq<Discount>, now: int, totalCalls: nat)
    ensures ActiveDiscounts([], now, totalCalls) == []
    ensures ActiveDiscounts(a + [d] + b, now, totalCalls)
         == ActiveDiscounts(a, now, totalCalls) + (if Applies(d, now, totalCalls) then [d] else [])
          + ActiveDiscounts(b, now, totalCalls)
  {
    ActiveConcat(a + [d], b, now, totalCalls);
    ActiveConcat(a, [d], now, totalCalls);
    ActiveFirst([d], d, [], now, totalCalls);
  }

  /** The places of the active discounts are those where one applies, from first to last. */
  predicate ArePlaces(discounts: seq<Discount>, active: seq<Discount>, places: seq<nat>, now: int, totalCalls: nat) {
    && |places| == |active|
    && (forall i, j :: 0 <= i < j < |places| ==> places[i] < places[j])
    && (forall k :: 0 <= k < |places| ==> places[k] < |discounts| && active[k] == discounts[places[k]])
    && forall i :: 0 <= i < |discounts| ==> (Applies(discounts[i], now, totalCalls) <==> i in places)
  }

  ghost predicate AreActive(discounts: seq<Discount>, active: seq<Discount>, now: int, totalCalls: nat) {
    exists places :: ArePlaces(discounts, active, places, now, totalCalls)
  }

  lemma OneMorePlace(
    front: seq<Discount>, d: Discount, active: seq<Discount>, places: seq<nat>, now: int, totalCalls: nat)
    requires ArePlaces(front, active, places, now, totalCalls)
    ensures Applies(d, now, totalCalls) ==>
      ArePlaces(front + [d], active + [d], places + [|front|], now, totalCalls)
    ensures !Applies(d, now, totalCalls) ==> ArePlaces(front + [d], active, places, now, totalCalls)
  {
    var more := places + [|front|];
    assert more[|places|] == |front|;
    forall i | 0 <= i < |front| ensures i in more <==> i in places {
    }
  }

  lemma {:induction false} ActivePlaces(discounts: seq<Discount>, now: int, totalCalls: nat) returns (places: seq<nat>)
    ensures ArePlaces(discounts, ActiveDiscounts(discounts, now, totalCalls), places, now, totalCalls)
  {
    if discounts == [] {
      places := [];
    } else {
      var last := |discounts| - 1;
      var front, d := discounts[..last], discounts[last];
      assert discounts == front + [d] == front + [d] + [];
      ActiveIs(front, d, [], now, totalCalls);
      places := ActivePlaces(front, now, totalCalls);
      OneMorePlace(front, d, ActiveDiscounts(front, now, totalCalls), places, now, totalCalls);
      if Applies(d, now, totalCalls) {
        places := places + [last];
      }
    }
  }

  lemma ActiveAreActive(discounts: seq<Discount>, now: int, totalCalls: nat)
    ensures AreActive(discounts, ActiveDiscounts(discounts, now, totalCalls), now, totalCalls)
  {
    var _ := ActivePlaces(discounts, now, totalCalls);
  }

  lemma StepsAreDiscounted(amount: int, discounts: seq<Discount>)
    ensures IsDiscounted(amount, discounts, Steps(amount, discounts), Chain(amount, discounts))
  {
    var _ := ChainTakesInTurn(amount, discounts, Steps(amount, discounts), Chain(amount, discounts));
  }

  // ---- Invoices ----

  /** Missing prices and limits are None. */
  datatype Pricing = Pricing(
    basePriceCents: Option<int>, overagePricePerCallCents: Option<int>, monthlyIncludedCalls: Option<int>)

  datatype LineItem = LineItem(quantity: int, unitAmountCents: int, amountCents: int)

  datatype Invoice = Invoice(lineItems: seq<LineItem>, subtotalCents: int, discounts: seq<Applied>, totalCents: int)

  /** A customer's own figure, else the tier's. */
  function Figure(custom: Option<int>, tier: Option<int>): Option<int> {
    if custom.Some? then custom else tier
  }

  function OrZero(figure: Option<int>): int {
    if figure.Some? then figure.value else 0
  }

  /** Calls past the included ones; nothing is included without limit when there is no limit to pass. */
  function OverageCalls(included: Option<int>, totalCalls: nat): nat {
    if included.None? || totalCalls <= included.value then 0 else totalCalls - included.value
  }

  function Total(amounts: seq<int>): int {
    if amounts == [] then 0 else amounts[0] + Total(amounts[1..])
  }

  function Amounts(items: seq<LineItem>): seq<int> {
    seq(|items|, i requires 0 <= i < |items| => items[i].amountCents)
  }

  lemma {:induction false} TotalConcat(a: seq<int>, b: seq<int>)
    ensures Total(a + b) == Total(a) + Total(b)
  {
    if a == [] {
      assert a + b == b;
    } else {
      TotalConcat(a[1..], b);
      assert (a + b)[1..] == a[1..] + b;
    }
  }

  /** The customer's own figure if there is one, else the tier's, else nothing. */
  predicate IsPrice(custom: Option<int>, tier: Option<int>, price: int) {
    && (custom.Some? ==> price == custom.value)
    && (custom.None? && tier.Some? ==> price == tier.value)
    && (custom.None? && tier.None? ==> price == 0)
  }

  /** The lines: the base fee, the included calls if there is such a limit, and the calls past it if any. */
  predicate AreLines(items: seq<LineItem>, base: int, included: Option<int>, price: int, totalCalls: nat) {
    items == [LineItem(1, base, base)]
      + (if included.Some? then [LineItem(included.value, 0, 0)] else [])
      + if included.Some? && totalCalls > included.value
        then [LineItem(totalCalls - included.value, price, (totalCalls - included.value) * price)]
        else []
  }

  /** The lines in the order they are listed, and the price of the calls past the included ones. */
  method ListLines(base: int, included: Option<int>, price: int, totalCalls: nat)
    returns (lineItems: seq<LineItem>, overage: int)
    ensures AreLines(lineItems, base, included, price, totalCalls)
    ensures overage == OverageCalls(included, totalCalls) * price
    ensures Total(Amounts(lineItems)) == base + overage
    ensures forall i :: 0 <= i < |lineItems| ==>
      lineItems[i].amountCents == lineItems[i].quantity * lineItems[i].unitAmountCents
  {
    var overageCalls := OverageCalls(included, totalCalls);
    overage := overageCalls * price;
    lineItems := [LineItem(1, base, base)];
    assert Amounts(lineItems) == [base];
    if included.Some? {
      lineItems := lineItems + [LineItem(included.value, 0, 0)];
      assert Amounts(lineItems) == [base] + [0];
      TotalConcat([base], [0]);
    }
    ghost var listed := Amounts(lineItems);
    assert Total(listed) == base;
    if overageCalls > 0 {
      lineItems := lineItems + [LineItem(overageCalls, price, overage)];
      assert Amounts(lineItems) == listed + [overage];
      TotalConcat(listed, [overage]);
    }
  }

  /** The invoice has the lines that these prices give, and what the active discounts leave of their sum. */
  ghost predicate IsInvoice(
    invoice: Invoice, custom: Pricing, tier: Pricing, discounts: seq<Discount>, totalCalls: nat, now: int,
    base: int, price: int, active: seq<Discount>)
  {
    && IsPrice(custom.basePriceCents, tier.basePriceCents, base)
    && IsPrice(custom.overagePricePerCallCents, tier.overagePricePerCallCents, price)
    && AreLines(invoice.lineItems, base,
         if custom.monthlyIncludedCalls.Some? then custom.monthlyIncludedCalls else tier.monthlyIncludedCalls,
         price, totalCalls)
    && Total(Amounts(invoice.lineItems)) == invoice.subtotalCents
    && AreActive(discounts, active, now, totalCalls)
    && IsDiscounted(invoice.subtotalCents, active, invoice.discounts, invoice.totalCents)
  }

  lemma InvoiceHolds(
    invoice: Invoice, custom: Pricing, tier: Pricing, discounts: seq<Discount>, totalCalls: nat, now: int,
    base: int, price: int, active: seq<Discount>)
    requires base == OrZero(Figure(custom.basePriceCents, tier.basePriceCents))
    requires price == OrZero(Figure(custom.overagePricePerCallCents, tier.overagePricePerCallCents))
    requires AreLines(
      invoice.lineItems, base, Figure(custom.monthlyIncludedCalls, tier.monthlyIncludedCalls), price, totalCalls)
    requires Total(Amounts(invoice.lineItems)) == invoice.subtotalCents
    requires active == ActiveDiscounts(discounts, now, totalCalls)
    requires invoice.totalCents == Chain(invoice.subtotalCents, active)
    requires invoice.discounts == Steps(invoice.subtotalCents, active)
    ensures IsInvoice(invoice, custom, tier, discounts, totalCalls, now, base, price, active)
  {
    ActiveAreActive(discounts, now, totalCalls);
    StepsAreDiscounted(invoice.subtotalCents, active);
  }

  /** Every line is its quantity at its unit price, the lines sum to the subtotal, the discounts explain the total. */
  method CalculateInvoice(custom: Pricing, tier: Pricing, discounts: seq<Discount>, totalCalls: nat, now: int)
    returns (invoice: Invoice)
    ensures forall i :: 0 <= i < |invoice.lineItems| ==>
      invoice.lineItems[i].amountCents == invoice.lineItems[i].quantity * invoice.lineItems[i].unitAmountCents
    ensures exists base: int, price: int, active: seq<Discount> ::
      IsInvoice(invoice, custom, tier, discounts, totalCalls, now, base, price, active)
    ensures Total(Amounts(invoice.lineItems)) == invoice.subtotalCents
    ensures invoice.totalCents == Chain(invoice.subtotalCents, ActiveDiscounts(discounts, now, totalCalls))
    ensures invoice.discounts == Steps(invoice.subtotalCents, ActiveDiscounts(discounts, now, totalCalls))
  {
    var included := Figure(custom.monthlyIncludedCalls, tier.monthlyIncludedCalls);
    var base := OrZero(Figure(custom.basePriceCents, tier.basePriceCents));
    var price := OrZero(Figure(custom.overagePricePerCallCents, tier.overagePricePerCallCents));
    var lineItems, overage := ListLines(base, included, price, totalCalls);
    var active := ActiveDiscounts(discounts, now, totalCalls);
    var total, applied := ApplyDiscountsToAmount(base + overage, active);
    invoice := Invoice(lineItems, base + overage, applied, total);
    InvoiceHolds(invoice, custom, tier, discounts, totalCalls, now, base, price, active);
  }

  // ---- The Stripe items ----

  function NonZero(amounts: seq<int>): seq<int> {
    if amounts == [] then [] else (if amounts[0] == 0 then [] else [amounts[0]]) + NonZero(amounts[1..])
  }

  lemma NonZeroFirst(amounts: seq<int>, amount: int, rest: seq<int>)
    requires amounts == [amount] + rest
    ensures NonZero(amounts) == (if amount == 0 then [] else [amount]) + NonZero(rest)
  {
    assert amounts[1..] == rest;
  }

  lemma {:induction false} NonZeroConcat(a: seq<int>, b: seq<int>)
    ensures NonZero(a + b) == NonZero(a) + NonZero(b)
  {
    if a == [] {
      assert a + b == b;
    } else {
      NonZeroConcat(a[1..], b);
      NonZeroFirst(a, a[0], a[1..]);
      NonZeroFirst(a + b, a[0], a[1..] + b);
    }
  }

  /** Exactly the amounts of zero are left out, and the others stay in order. */
  lemma NonZeroIs(a: seq<int>, amount: int, b: seq<int>)
    ensures NonZero([]) == []
    ensures NonZero(a + [amount] + b) == NonZero(a) + (if amount == 0 then [] else [amount]) + NonZero(b)
  {
    NonZeroConcat(a + [amount], b);
    NonZeroConcat(a, [amount]);
    NonZeroFirst([amount], amount, []);
  }

  function StripeAmounts(invoice: Invoice): seq<int> {
    var reduction := TotalReduction(invoice.discounts);
    NonZero(Amounts(invoice.lineItems)) + if reduction > 0 then [-reduction] else []
  }

  method SumReductions(discounts: seq<Applied>) returns (total: int)
    ensures total == TotalReduction(discounts)
  {
    total := 0;
    for k := 0 to |discounts|
      invariant total + TotalReduction(discounts[k..]) == TotalReduction(discounts)
    {
      assert discounts[k..][1..] == discounts[k + 1..];
      total := total + discounts[k].reductionCents;
    }
  }

  /** The amounts of the invoice items created, in order. */
  method CreateStripeItems(invoice: Invoice) returns (created: seq<int>)
    ensures created == StripeAmounts(invoice)
  {
    created := [];
    ghost var amounts := Amounts(invoice.lineItems);
    for k := 0 to |invoice.lineItems|
      invariant created + NonZero(amounts[k..]) == NonZero(amounts)
    {
      var amount := invoice.lineItems[k].amountCents;
      assert amounts[k..][0] == amount && amounts[k..][1..] == amounts[k + 1..];
      if amount != 0 {
        created := created + [amount];
      }
    }
    var totalReduction := SumReductions(invoice.discounts);
    if totalReduction > 0 {
      created := created + [-totalReduction];
    }
  }

  lemma {:induction false} TotalOfNonZero(amounts: seq<int>)
    ensures Total(NonZero(amounts)) == Total(amounts)
  {
    if amounts != [] {
      TotalOfNonZero(amounts[1..]);
      var first := if amounts[0] == 0 then [] else [amounts[0]];
      TotalConcat(first, NonZero(amounts[1..]));
    }
  }

  /**
   What is created at Stripe adds up to the invoice's total, exactly when the subtotal is not negative or no
   discount is active: a discount lifts a negative subtotal to zero, and that rise is never sent.
   */
  lemma StripeItemsAddUp(invoice: Invoice, active: seq<Discount>)
    requires AllValid(active)
    requires Total(Amounts(invoice.lineItems)) == invoice.subtotalCents
    requires invoice.discounts == Steps(invoice.subtotalCents, active)
    requires invoice.totalCents == Chain(invoice.subtotalCents, active)
    ensures Total(StripeAmounts(invoice)) == invoice.totalCents <==> invoice.subtotalCents >= 0 || active == []
  {
    var amounts, reduction := Amounts(invoice.lineItems), TotalReduction(invoice.discounts);
    var last := if reduction > 0 then [-reduction] else [];
    TotalOfNonZero(amounts);
    TotalConcat(NonZero(amounts), last);
    StepsAddUp(invoice.subtotalCents, active);
    if invoice.subtotalCents >= 0 {
      ChainInRange(invoice.subtotalCents, active);
    } else if active != [] {
      ChainNotNegative(invoice.subtotalCents, active);
    }
  }

  /** Any discount at all leaves an amount that is not negative. */
  lemma ChainNotNegative(amount: int, discounts: seq<Discount>)
    requires AllValid(discounts) && discounts != []
    ensures Chain(amount, discounts) >= 0
  {
    DiscountedMonotone(amount, amount, discounts[0]);
    ChainInRange(Discounted(amount, discounts[0]), discounts[1..]);
  }
}
