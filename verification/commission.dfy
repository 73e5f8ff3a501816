/** The commission rules: the tiered multiplier and the payout schedule. */
module Commission {
  import opened Wrappers
  import opened Calendar
  import DateArith

  /** Upper bounds (inclusive) of the two lower tiers. */
  const LowTierCap: real := 2000.0
  const MidTierCap: real := 4000.0

  /** `compute_commission_multiplier`: 1.2, 1.4 or 1.6 by monthly total. */
  function Multiplier(amount: real): (r: real)
    ensures r == 1.2 || r == 1.4 || r == 1.6
    ensures r == 1.2 <==> amount <= LowTierCap
    ensures r == 1.6 <==> MidTierCap < amount
  {
    if amount <= LowTierCap then 1.2
    else if amount <= MidTierCap then 1.4
    else 1.6
  }

  /** Number of caps in `caps` that the amount strictly exceeds. */
  function CapsExceeded(caps: seq<real>, amount: real): (k: nat)
    ensures k <= |caps|
  {
    if caps == [] then 0
    else (if caps[0] < amount then 1 else 0) + CapsExceeded(caps[1..], amount)
  }

  /** Reference reading of the tiers: 20% commission plus 20 points for every
      tier cap the amount passes. */
  lemma MultiplierBySteps(amount: real)
    ensures Multiplier(amount) == 1.2 + 0.2 * (CapsExceeded([LowTierCap, MidTierCap], amount) as real)
  {
    var caps := [LowTierCap, MidTierCap];
    assert caps[1..][1..] == [];
  }

  /** A larger monthly total never drops to a lower tier. */
  lemma MultiplierMonotone(a: real, b: real)
    requires a <= b
    ensures Multiplier(a) <= Multiplier(b)
  {
  }

  /** The caps go to the lower tier; a cent above moves up. */
  lemma MultiplierBoundaries()
    ensures Multiplier(2000.0) == 1.2 && Multiplier(2000.01) == 1.4
    ensures Multiplier(4000.0) == 1.4 && Multiplier(4000.01) == 1.6
  {
  }

  /** The displayed commission, `total * (multiplier - 1)`, before rounding. */
  function CommissionValue(total: real): (r: real)
    ensures r == 0.2 * total || r == 0.4 * total || r == 0.6 * total
    ensures r == 0.2 * total <==> total <= LowTierCap
    ensures LowTierCap < total <= MidTierCap ==> r == 0.4 * total
    ensures MidTierCap < total ==> r == 0.6 * total
    ensures total > 0.0 ==> r > 0.0
    ensures total < 0.0 ==> r < 0.0
  {
    total * (Multiplier(total) - 1.0)
  }

  /** On a non-negative total the commission is between 20% and 60% of it,
      and a larger total never earns less. */
  lemma CommissionBounds(total: real)
    requires total >= 0.0
    ensures 0.2 * total <= CommissionValue(total) <= 0.6 * total
  {
  }

  lemma CommissionMonotone(a: real, b: real)
    requires a <= b
    ensures CommissionValue(a) <= CommissionValue(b)
  {
    if a < 0.0 {
      return;
    }
    MultiplierMonotone(a, b);
    var ma, mb := Multiplier(a) - 1.0, Multiplier(b) - 1.0;
    assert a * ma <= b * ma;
    assert b * ma <= b * mb;
  }

  /** Day of month on which each payout run happens. */
  const EarlyCutoffDay: int := 5
  const SameMonthPayoutDay: int := 20
  const NextMonthPayoutDay: int := 5

  /** False only for a payment after the 5th of December 9999, whose payout
      month would be beyond what a `date` can hold. */
  predicate PayoutDefined(paid: Date) {
    !(paid.day > EarlyCutoffDay && paid.year == MaxYear && paid.month == 12)
  }

  /** `compute_collaborator_receipt_date`. `None` only where `add_months` in
      app.py never returns a date: a late payment in December 9999. */
  function ReceiptDate(paid: Date): (r: Option<Date>)
    requires Valid(paid)
    ensures r.Some? <==> PayoutDefined(paid)
    ensures r.Some? ==> Valid(r.value) && Before(paid, r.value)
    ensures paid.day <= EarlyCutoffDay ==>
      r == Some(Date(paid.year, paid.month, SameMonthPayoutDay))
    ensures paid.day > EarlyCutoffDay && r.Some? ==>
      r.value.day == NextMonthPayoutDay && MonthIndex(r.value) == MonthIndex(paid) + 1
  {
    if paid.day <= EarlyCutoffDay then
      Some(Date(paid.year, paid.month, SameMonthPayoutDay))
    else
      match DateArith.AddMonths(paid, 1)
      case None => None
      case Some(next) => Some(Date(next.year, next.month, NextMonthPayoutDay))
  }

  /** December rolls over into January of the following year. */
  lemma ReceiptDateDecemberRollover(paid: Date)
    requires Valid(paid) && paid.month == 12 && paid.day > EarlyCutoffDay && paid.year < MaxYear
    ensures ReceiptDate(paid) == Some(Date(paid.year + 1, 1, NextMonthPayoutDay))
  {
    var r := ReceiptDate(paid).value;
    MonthIndexDetermines(r, Date(paid.year + 1, 1, 1));
  }

  /** Late payments in any other month pay out on the 5th of the next month
      of the same year. */
  lemma ReceiptDateNextMonth(paid: Date)
    requires Valid(paid) && paid.month < 12 && paid.day > EarlyCutoffDay
    ensures ReceiptDate(paid) == Some(Date(paid.year, paid.month + 1, NextMonthPayoutDay))
  {
    var r := ReceiptDate(paid).value;
    MonthIndexDetermines(r, Date(paid.year, paid.month + 1, 1));
  }

  /** A payout is scheduled in the payment's month or the next one, never
      later. */
  lemma ReceiptDateWithinOneMonth(paid: Date)
    requires Valid(paid) && ReceiptDate(paid).Some?
    ensures 0 <= MonthIndex(ReceiptDate(paid).value) - MonthIndex(paid) <= 1
    ensures ReceiptDate(paid).value.day == SameMonthPayoutDay
      || ReceiptDate(paid).value.day == NextMonthPayoutDay
  {
  }

  /** Paying later never schedules the payout earlier. */
  lemma ReceiptDateMonotone(p1: Date, p2: Date)
    requires Valid(p1) && Valid(p2) && NotAfter(p1, p2) && PayoutDefined(p2)
    ensures ReceiptDate(p1).Some?
    ensures NotAfter(ReceiptDate(p1).value, ReceiptDate(p2).value)
  {
    if MonthIndex(p1) == MonthIndex(p2) {
      MonthIndexDetermines(p1, p2);
    }
  }

  lemma ReceiptDateExamples()
    ensures ReceiptDate(Date(2024, 3, 5)) == Some(Date(2024, 3, 20))
    ensures ReceiptDate(Date(2024, 3, 6)) == Some(Date(2024, 4, 5))
    ensures ReceiptDate(Date(2024, 1, 31)) == Some(Date(2024, 2, 5))
    ensures ReceiptDate(Date(2024, 12, 31)) == Some(Date(2025, 1, 5))
  {
    ReceiptDateNextMonth(Date(2024, 3, 6));
    ReceiptDateNextMonth(Date(2024, 1, 31));
    ReceiptDateDecemberRollover(Date(2024, 12, 31));
  }
}
