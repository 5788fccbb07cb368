/** Settlement arithmetic of lib/stripe/helpers.ts. Amounts are integer
    cents; the source's dollar formulas are also stated over exact reals so
    that the cents model can be checked against them. */
module Money {
  import opened Common

  /** The processor's fee: 2.9 % of the amount plus 30 cents. */
  const FeePerMille := 29
  const FixedFeeCents := 30
  const Platform := "bais-menachem-auction"

  /** `Math.round(n / d)`, which rounds halves up: the integer r with
      r <= n/d + 1/2 < r + 1. */
  function RoundDiv(n: int, d: int): (r: int)
    requires d != 0
    ensures d > 0 ==> 2 * d * r <= 2 * n + d < 2 * d * r + 2 * d
    ensures d < 0 ==> 2 * d * r >= 2 * n + d > 2 * d * r + 2 * d
  {
    if d > 0 then (2 * n + d) / (2 * d) else (-(2 * n + d)) / (-2 * d)
  }

  /** calculateStripeFee in cents: round(amount * 0.029 + 0.30) at cent
      precision, i.e. round((29 * c + 30000) / 1000). */
  function StripeFee(c: int): int {
    RoundDiv(FeePerMille * c + FixedFeeCents * 1000, 1000)
  }

  /** The fee is the exact fee rounded half up: 1000 * fee lies within
      half a cent of 29 * c + 30000. */
  lemma StripeFeeBounds(c: int)
    ensures 1000 * StripeFee(c) - 500 <= 29 * c + 30000 < 1000 * StripeFee(c) + 500
  {
  }

  /** Worked case: a subtotal of 120.00 carries a fee of 3.78. */
  lemma StripeFeeExample()
    ensures StripeFee(12000) == 378
  {
  }

  /** For a non-negative amount the fee is at least the fixed 30 cents. */
  lemma {:induction false} StripeFeeAtLeastFixed(c: int)
    requires c >= 0
    ensures StripeFee(c) >= FixedFeeCents
  {
    StripeFeeBounds(c);
  }

  /** The fee never decreases as the amount grows. */
  lemma {:induction false} StripeFeeMonotone(a: int, b: int)
    requires a <= b
    ensures StripeFee(a) <= StripeFee(b)
  {
    StripeFeeBounds(a);
    StripeFeeBounds(b);
  }

  /** The breakdown calculatePaymentTotal returns. */
  datatype PaymentTotal = PaymentTotal(subtotal: int, processingFee: int, total: int)

  /** calculatePaymentTotal: the fee is added only when the payer covers it.
      Rounding each value to cents is the identity on cent amounts. */
  function CalculatePaymentTotal(subtotal: int, includeFee: bool): (t: PaymentTotal)
    ensures t.subtotal == subtotal
    ensures t.total == t.subtotal + t.processingFee
    ensures includeFee ==> t.processingFee == StripeFee(subtotal)
    ensures !includeFee ==> t.processingFee == 0 && t.total == subtotal
  {
    var fee := if includeFee then StripeFee(subtotal) else 0;
    PaymentTotal(subtotal, fee, subtotal + fee)
  }

  /** Worked case: 120.00 with the fee covered comes to 123.78. */
  lemma PaymentTotalExample()
    ensures CalculatePaymentTotal(12000, true) == PaymentTotal(12000, 378, 12378)
  {
    StripeFeeExample();
  }

  // ---------------------------------------------------------------------------
  // Dollars and cents

  /** centsToDollars: `cents / 100`. */
  function CentsToDollars(c: int): real {
    c as real / 100.0
  }

  /** dollarsToCents: `Math.round(dollars * 100)`. */
  function DollarsToCents(d: real): int {
    (d * 100.0 + 0.5).Floor
  }

  /** Converting a cent amount to dollars and back is the identity. */
  lemma {:induction false} CentsRoundTrip(c: int)
    ensures DollarsToCents(CentsToDollars(c)) == c
  {
    var d := CentsToDollars(c);
    assert d * 100.0 == c as real;
    assert c as real <= d * 100.0 + 0.5 < c as real + 1.0;
  }

  /** `Math.round(x * 100) / 100`, the source's rounding to cents. */
  function RoundToCents(x: real): real {
    (x * 100.0 + 0.5).Floor as real / 100.0
  }

  /** calculateStripeFee evaluated exactly on a dollar amount. */
  function StripeFeeDollars(amount: real): real {
    RoundToCents(amount * 0.029 + 0.30)
  }

  /** The cents fee is the source's dollar formula applied to the same
      amount: for subtotal c cents the dollar fee is StripeFee(c) / 100. */
  lemma {:induction false} StripeFeeMatchesDollarFormula(c: int)
    ensures StripeFeeDollars(CentsToDollars(c)) == CentsToDollars(StripeFee(c))
  {
    var x := (CentsToDollars(c) * 0.029 + 0.30) * 100.0 + 0.5;
    var n := 29 * c + 30500;
    assert x == n as real / 1000.0;
    var f := StripeFee(c);
    assert f == n / 1000;
    assert 1000 * f <= n < 1000 * f + 1000;
    assert f as real <= x < f as real + 1.0;
    assert x.Floor == f;
  }

  // ---------------------------------------------------------------------------
  // Installments

  datatype Installments = Installments(
    monthlyAmount: int,
    totalMonths: int,
    totalAmount: int,
    firstPayment: int)

  /** calculateInstallments. Dividing by zero months yields a non-finite
      amount in the source; the model answers None there. */
  function CalculateInstallments(totalAmount: int, months: int, includeFee: bool): (r: Option<Installments>)
    ensures r.None? <==> months == 0
    ensures r.Some? ==> r.value.totalMonths == months
    ensures r.Some? ==> r.value.totalAmount == CalculatePaymentTotal(totalAmount, includeFee).total
    ensures r.Some? ==> r.value.firstPayment == r.value.monthlyAmount
  {
    var total := CalculatePaymentTotal(totalAmount, includeFee).total;
    if months == 0 then None
    else
      var monthly := RoundDiv(total, months);
      Some(Installments(monthly, months, total, monthly))
  }

  /** For a positive number of months, the monthly amounts add up to the
      total up to rounding: they differ by at most half a cent per month. */
  lemma {:induction false} InstallmentsCoverTotal(totalAmount: int, months: int, includeFee: bool)
    requires months >= 1
    ensures var r := CalculateInstallments(totalAmount, months, includeFee).value;
      -months <= 2 * (r.monthlyAmount * months - r.totalAmount) <= months
  {
    var r := CalculateInstallments(totalAmount, months, includeFee).value;
    var t := r.totalAmount;
    var m := r.monthlyAmount;
    assert m == RoundDiv(t, months);
    assert 2 * months * m <= 2 * t + months < 2 * months * m + 2 * months;
    assert m * months == months * m;
  }

  // ---------------------------------------------------------------------------
  // Account ids and metadata

  predicate IsAsciiAlnum(c: char) {
    ('a' <= c <= 'z') || ('A' <= c <= 'Z') || ('0' <= c <= '9')
  }

  /** `/^acct_[a-zA-Z0-9]{16,}$/`: the prefix, then at least sixteen ASCII
      letters or digits and nothing else. */
  predicate IsValidStripeAccountId(s: string) {
    |s| >= 21 && s[..5] == "acct_" &&
    forall i :: 5 <= i < |s| ==> IsAsciiAlnum(s[i])
  }

  /** isValidStripeAccountId, computed by one left-to-right scan. */
  method CheckStripeAccountId(s: string) returns (ok: bool)
    ensures ok <==> IsValidStripeAccountId(s)
  {
    if |s| < 21 || s[..5] != "acct_" {
      return false;
    }
    var i := 5;
    while i < |s|
      invariant 5 <= i <= |s|
      invariant forall k :: 5 <= k < i ==> IsAsciiAlnum(s[k])
    {
      if !IsAsciiAlnum(s[i]) {
        return false;
      }
      i := i + 1;
    }
    return true;
  }

  /** generatePaymentMetadata: the processor-side metadata of a payment. */
  function GeneratePaymentMetadata(itemIds: seq<string>, bidderEmail: string, auctionId: string): (m: map<string, string>)
    ensures m.Keys == {"auction_id", "item_ids", "bidder_email", "platform"}
    ensures m["item_ids"] == Join(itemIds, ",")
    ensures m["auction_id"] == auctionId && m["bidder_email"] == bidderEmail
    ensures m["platform"] == Platform
  {
    map["auction_id" := auctionId,
        "item_ids" := Join(itemIds, ","),
        "bidder_email" := bidderEmail,
        "platform" := Platform]
  }
}
