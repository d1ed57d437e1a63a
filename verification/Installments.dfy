/**
 The total of an instalment plan, computed twice: by the plan editor
 (legacy/web/payment-plans.tsx) and by the invoice converter
 (legacy/web/invoice-installments.tsx).  Money is whole cents.
 */
module Installments {

  datatype FeeType = Fixed | Percent

  datatype Row = Row(amount: nat, fee: nat)

  /** `feeValue` is cents for `Fixed` and hundredths of a percent for `Percent`. */
  datatype Plan = Plan(feeType: FeeType, feeValue: nat, rows: seq<Row>)

  datatype PlannedRow = PlannedRow(position: nat, amount: nat, fee: nat, total: nat, paid: nat, balance: nat)

  // ---- Operations

  /** `Math.round(n / d)`: to the nearest, halves up. */
  function Rounded(n: nat, d: nat): (r: nat)
    requires d > 0
    ensures 2 * n - d < 2 * (r * d) <= 2 * n + d
  {
    var r := (2 * n + d) / (2 * d);
    RoundedBounds(n, d);
    r
  }

  lemma RoundedBounds(n: nat, d: nat)
    requires d > 0
    ensures 2 * n - d < 2 * ((2 * n + d) / (2 * d) * d) <= 2 * n + d
  {
    var x, k := 2 * n + d, 2 * d;
    assert x == (x / k) * k + x % k;
    assert (x / k) * k == 2 * ((x / k) * d);
  }

  function PlanFee(plan: Plan, amount: nat): nat {
    if plan.feeType == Fixed then plan.feeValue else Rounded(amount * plan.feeValue, 10000)
  }

  /** The editor's reduce, from `sum`. */
  function EditorTotal(plan: Plan, rows: seq<Row>, sum: nat): nat {
    if rows == [] then sum
    else EditorTotal(plan, rows[1..], sum + rows[0].amount + rows[0].fee + PlanFee(plan, rows[0].amount))
  }

  /** The converter's preview of each row. */
  function Preview(plan: Plan): seq<PlannedRow> {
    seq(|plan.rows|, i requires 0 <= i < |plan.rows| =>
      var fee := plan.rows[i].fee + PlanFee(plan, plan.rows[i].amount);
      PlannedRow(i + 1, plan.rows[i].amount, fee, plan.rows[i].amount + fee, 0, plan.rows[i].amount + fee))
  }

  function PlanTotal(rows: seq<PlannedRow>, sum: nat): nat {
    if rows == [] then sum else PlanTotal(rows[1..], sum + rows[0].total)
  }

  // ---- Sums to compare them with

  function AmountSum(rows: seq<Row>): nat {
    if rows == [] then 0 else rows[0].amount + AmountSum(rows[1..])
  }

  function OwnFees(rows: seq<Row>): nat {
    if rows == [] then 0 else rows[0].fee + OwnFees(rows[1..])
  }

  function PlanFees(plan: Plan, rows: seq<Row>): nat {
    if rows == [] then 0 else PlanFee(plan, rows[0].amount) + PlanFees(plan, rows[1..])
  }

  lemma {:induction false} EditorTotalIs(plan: Plan, rows: seq<Row>, sum: nat)
    ensures EditorTotal(plan, rows, sum) == sum + AmountSum(rows) + OwnFees(rows) + PlanFees(plan, rows)
  {
    if rows != [] {
      EditorTotalIs(plan, rows[1..], sum + rows[0].amount + rows[0].fee + PlanFee(plan, rows[0].amount));
    }
  }

  lemma {:induction false} PlanTotalIs(plan: Plan, i: nat, sum: nat)
    requires i <= |plan.rows|
    ensures PlanTotal(Preview(plan)[i..], sum)
         == sum + AmountSum(plan.rows[i..]) + OwnFees(plan.rows[i..]) + PlanFees(plan, plan.rows[i..])
    decreases |plan.rows| - i
  {
    if i < |plan.rows| {
      PlanTotalIs(plan, i + 1, sum + Preview(plan)[i].total);
      assert Preview(plan)[i..][1..] == Preview(plan)[i + 1..] && plan.rows[i..][1..] == plan.rows[i + 1..];
    }
  }

  /** Both screens show the same total for every plan: amounts, own fees and plan fees together. */
  lemma TotalsAgree(plan: Plan)
    ensures EditorTotal(plan, plan.rows, 0) == PlanTotal(Preview(plan), 0)
    ensures EditorTotal(plan, plan.rows, 0) == AmountSum(plan.rows) + OwnFees(plan.rows) + PlanFees(plan, plan.rows)
  {
    EditorTotalIs(plan, plan.rows, 0);
    PlanTotalIs(plan, 0, 0);
    assert Preview(plan)[0..] == Preview(plan) && plan.rows[0..] == plan.rows;
  }

  /** A fixed fee is charged once for each instalment. */
  lemma {:induction false} FixedFees(plan: Plan, rows: seq<Row>)
    requires plan.feeType == Fixed
    ensures PlanFees(plan, rows) == |rows| * plan.feeValue
  {
    if rows != [] {
      FixedFees(plan, rows[1..]);
      Distributed(1, |rows[1..]|, plan.feeValue);
    }
  }

  /** The planned instalments are numbered from 1 and unpaid, and the balance, like the total, is the amount and both fees. */
  lemma PreviewExact(plan: Plan, i: nat)
    requires i < |plan.rows|
    ensures |Preview(plan)| == |plan.rows|
    ensures var row, planned := plan.rows[i], Preview(plan)[i];
            && planned.position == i + 1 && planned.amount == row.amount && planned.paid == 0
            && planned.fee == row.fee + PlanFees(plan, [row])
            && planned.balance == planned.total == planned.amount + planned.fee
  {
    assert [plan.rows[i]][1..] == [];
    hide PlanFee;
  }

  /**
   Rounding each instalment's percentage moves the fee from the exact one on the
   summed amount by at most half a cent per instalment, and by less downwards.
   Both sides are in 20000ths of a cent.
   */
  lemma {:induction false} FeeRounding(plan: Plan, rows: seq<Row>)
    requires plan.feeType == Percent
    ensures var rounded, exact := 20000 * PlanFees(plan, rows), 2 * (AmountSum(rows) * plan.feeValue);
            && exact - 10000 * |rows| <= rounded <= exact + 10000 * |rows|
            && (rows != [] ==> exact - 10000 * |rows| < rounded)
  {
    if rows != [] {
      hide PlanFee;
      FeeRounding(plan, rows[1..]);
      OneFee(plan, rows[0].amount);
      Distributed(rows[0].amount, AmountSum(rows[1..]), plan.feeValue);
    }
  }

  lemma OneFee(plan: Plan, amount: nat)
    requires plan.feeType == Percent
    ensures 2 * (amount * plan.feeValue) - 10000 < 20000 * PlanFee(plan, amount) <= 2 * (amount * plan.feeValue) + 10000
  {
  }

  lemma Distributed(a: int, b: int, v: int)
    ensures (a + b) * v == a * v + b * v
  {
  }

  /** The bound is reached: n instalments of one cent at 50% are charged n cents for n / 2. */
  lemma {:induction false} FeeRoundingReached(n: nat)
    ensures var rows := seq(n, _ => Row(1, 0));
            20000 * PlanFees(Plan(Percent, 5000, rows), rows) == 2 * (AmountSum(rows) * 5000) + 10000 * n
  {
    var rows := seq(n, _ => Row(1, 0));
    if n > 0 {
      var rest := seq(n - 1, _ => Row(1, 0));
      FeeRoundingReached(n - 1);
      assert rows[1..] == rest;
      SamePlanFees(Plan(Percent, 5000, rows), Plan(Percent, 5000, rest), rest);
      assert PlanFee(Plan(Percent, 5000, rows), 1) == 1;
    }
  }

  lemma {:induction false} SamePlanFees(p: Plan, q: Plan, rows: seq<Row>)
    requires p.feeType == q.feeType && p.feeValue == q.feeValue
    ensures PlanFees(p, rows) == PlanFees(q, rows)
  {
    if rows != [] {
      SamePlanFees(p, q, rows[1..]);
    }
  }
}
