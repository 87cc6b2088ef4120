/** The installment schedule of a student payment plan
    (src/components/StudentPlan/StudentPlanModal.comp.jsx): generation of an
    equal split with monthly due dates, rebalancing after a per-installment
    edit, and rebalancing after a deletion. */
module Installments {
  import opened Wrappers
  import opened Money
  import Seqs

  /** A calendar date as a month ordinal (year * 12 + month) and a day of the
      month. Ordered as the ISO `YYYY-MM-DD` strings it stands for. */
  datatype Date = Date(month: int, day: int)

  /** Strictly earlier. */
  predicate Before(a: Date, b: Date) {
    a.month < b.month || (a.month == b.month && a.day < b.day)
  }

  /** `d.setMonth(d.getMonth() + k)`, keeping the day of the month. */
  function AddMonths(d: Date, k: nat): (r: Date)
    ensures k > 0 ==> Before(d, r)
    ensures r.day == d.day
  {
    Date(d.month + k, d.day)
  }

  /** An installment; a due date cleared in its input is `None`. */
  datatype Installment = Installment(amount: real, dueDate: Option<Date>)

  function Amounts(xs: seq<Installment>): (r: seq<real>)
    ensures |r| == |xs| && forall i :: 0 <= i < |xs| ==> r[i] == xs[i].amount
  {
    seq(|xs|, i requires 0 <= i < |xs| => xs[i].amount)
  }

  /** The schedule's total, `installments.reduce((s, x) => s + x.amount, 0)`. */
  function Total(xs: seq<Installment>): real {
    SumReals(Amounts(xs))
  }

  /** The total of all but the last entry plus the last entry. */
  lemma TotalSplitsOffLast(xs: seq<Installment>)
    requires xs != []
    ensures Total(xs) == Total(xs[..|xs| - 1]) + xs[|xs| - 1].amount
  {
    assert Amounts(xs)[..|xs| - 1] == Amounts(xs[..|xs| - 1]);
  }

  /** Entries whose amounts are `amounts`, entry `i` due `i` months after `start`. */
  function Schedule(amounts: seq<real>, start: Date): (r: seq<Installment>)
    ensures |r| == |amounts| && Amounts(r) == amounts
    ensures forall i :: 0 <= i < |r| ==> r[i].dueDate == Some(AddMonths(start, i))
  {
    seq(|amounts|, i requires 0 <= i < |amounts| =>
          Installment(amounts[i], Some(AddMonths(start, i))))
  }

  /** `generateInstallments(count)` corrected to split in whole cents:
      `count` entries, one month apart from `today`, every part but the last
      the share rounded down to a cent, the last absorbing the remainder. */
  function GenerateCorrected(total: real, count: nat, today: Date): (r: seq<Installment>)
    ensures |r| == count
    ensures count > 0 ==> Total(r) == total
    ensures forall i :: 0 <= i < count - 1 ==> r[i].amount == ShareCorrected(total, count)
    ensures count > 0 ==> r[count - 1].amount == total - ShareCorrected(total, count) * (count - 1) as real
    ensures forall i :: 0 <= i < count ==> r[i].dueDate == Some(AddMonths(today, i))
  {
    if count == 0 then [] else Schedule(SplitAmounts(total, ShareCorrected(total, count), count), today)
  }

  /** `generateInstallments(count)`: `count` entries, one month apart from
      `today`; every part but the last is exactly `total / count` and the
      last absorbs the remainder. */
  function Generate(total: real, count: nat, today: Date): (r: seq<Installment>)
    ensures |r| == count
    ensures count > 0 ==> Total(r) == total
    ensures forall i :: 0 <= i < count - 1 ==> r[i].amount == total / count as real
    ensures count > 0 ==> r[count - 1].amount == total - total / count as real * (count - 1) as real
    ensures forall i :: 0 <= i < count ==> r[i].dueDate == Some(AddMonths(today, i))
  {
    if count == 0 then [] else Schedule(SplitAmounts(total, ShareAsWritten(total, count), count), today)
  }

  /** Every amount of the corrected schedule but the last is a whole
      number of cents. */
  lemma GeneratedCents(total: real, count: nat, today: Date)
    ensures forall i :: 0 <= i < count - 1 ==> IsCents(GenerateCorrected(total, count, today)[i].amount)
  {
    var g := GenerateCorrected(total, count, today);
    forall i | 0 <= i < count - 1 ensures IsCents(g[i].amount) {
      assert g[i].amount == ShareCorrected(total, count);
    }
  }

  /** Due dates strictly increase along the list. */
  predicate DatesIncreasing(xs: seq<Installment>) {
    forall i, j :: 0 <= i < j < |xs| ==>
      xs[i].dueDate.Some? && xs[j].dueDate.Some? && Before(xs[i].dueDate.value, xs[j].dueDate.value)
  }

  /** A generated schedule is due on strictly increasing dates, so no two of
      its due dates coincide. */
  lemma GeneratedDatesIncrease(total: real, count: nat, today: Date)
    ensures DatesIncreasing(GenerateCorrected(total, count, today))
    ensures DatesIncreasing(Generate(total, count, today))
  {
    var g, w := GenerateCorrected(total, count, today), Generate(total, count, today);
    forall i, j | 0 <= i < j < count
      ensures g[i].dueDate.Some? && g[j].dueDate.Some? && Before(g[i].dueDate.value, g[j].dueDate.value)
      ensures w[i].dueDate.Some? && w[j].dueDate.Some? && Before(w[i].dueDate.value, w[j].dueDate.value)
    {
      assert g[i].dueDate == w[i].dueDate == Some(AddMonths(today, i));
      assert g[j].dueDate == w[j].dueDate == Some(AddMonths(today, j));
    }
  }

  /** `handleInstallmentChange(index, "amount", value)`: the entry takes the
      parsed amount (0 when `parseFloat` fails); unless it is the last entry,
      the last entry then takes whatever makes the schedule add up to
      `total`. Nothing else changes. */
  function EditAmount(xs: seq<Installment>, index: nat, parsed: Option<real>, total: real)
    : (r: seq<Installment>)
    requires index < |xs|
    ensures |r| == |xs|
    ensures forall j :: 0 <= j < |xs| ==> r[j].dueDate == xs[j].dueDate
    ensures r[index].amount == parsed.GetOr(0.0)
    ensures index < |xs| - 1 ==>
              (forall j :: 0 <= j < |xs| - 1 && j != index ==> r[j] == xs[j])
              && r[|xs| - 1].amount == total - Total(r[..|xs| - 1])
              && Total(r) == total
    ensures index == |xs| - 1 ==> r == xs[index := Installment(parsed.GetOr(0.0), xs[index].dueDate)]
  {
    var v := parsed.GetOr(0.0);
    var u := xs[index := xs[index].(amount := v)];
    if index == |u| - 1 then u
    else
      var r := u[|u| - 1 := u[|u| - 1].(amount := total - Total(u[..|u| - 1]))];
      assert r[..|r| - 1] == u[..|u| - 1];
      TotalSplitsOffLast(r);
      r
  }

  /** `handleInstallmentChange(index, "dueDate", value)`: only that entry's
      date changes; no amount is touched. */
  function EditDueDate(xs: seq<Installment>, index: nat, date: Option<Date>)
    : (r: seq<Installment>)
    requires index < |xs|
    ensures |r| == |xs| && Amounts(r) == Amounts(xs)
    ensures r[index].dueDate == date
    ensures forall j :: 0 <= j < |xs| && j != index ==> r[j] == xs[j]
  {
    xs[index := xs[index].(dueDate := date)]
  }

  /** Reassigns the amounts of `xs` to the equal split of `total` with
      per-part `share`, keeping every due date. */
  function RebalanceWith(xs: seq<Installment>, total: real, share: real): (r: seq<Installment>)
    ensures |r| == |xs| && Amounts(r) == SplitAmounts(total, share, |xs|)
    ensures forall j :: 0 <= j < |xs| ==> r[j].dueDate == xs[j].dueDate
  {
    var a := SplitAmounts(total, share, |xs|);
    var r := seq(|xs|, j requires 0 <= j < |xs| => xs[j].(amount := a[j]));
    assert Amounts(r) == a;
    r
  }

  /** The whole-cent equal split of `total` over the entries of `xs`. */
  function RebalanceCorrected(xs: seq<Installment>, total: real): (r: seq<Installment>)
    requires xs != []
    ensures |r| == |xs| && Total(r) == total
    ensures forall j :: 0 <= j < |xs| ==> r[j].dueDate == xs[j].dueDate
    ensures forall j :: 0 <= j < |xs| - 1 ==> r[j].amount == ShareCorrected(total, |xs|)
  {
    RebalanceWith(xs, total, ShareCorrected(total, |xs|))
  }

  /** `handleDeleteInstallment(index)` corrected to re-split in whole cents,
      otherwise as `Delete`. */
  function DeleteCorrected(xs: seq<Installment>, index: int, total: real): (r: seq<Installment>)
    ensures |xs| <= 2 ==> r == xs
    ensures |xs| > 2 && 0 <= index < |xs| ==>
              |r| == |xs| - 1
              && (forall j :: 0 <= j < index ==> r[j].dueDate == xs[j].dueDate)
              && (forall j :: index <= j < |r| ==> r[j].dueDate == xs[j + 1].dueDate)
    ensures |xs| > 2 ==> |r| >= 2 && Total(r) == total
    ensures |xs| > 2 ==> forall j :: 0 <= j < |r| - 1 ==> r[j].amount == ShareCorrected(total, |r|)
  {
    if |xs| <= 2 then xs else RebalanceCorrected(Seqs.RemoveAt(xs, index), total)
  }

  /** `handleDeleteInstallment(index)`: refused (list unchanged) when two or
      fewer entries remain; otherwise the entry goes, the survivors keep their
      order and due dates, all but the last get exactly `total / length` and
      the last absorbs the remainder. */
  function Delete(xs: seq<Installment>, index: int, total: real): (r: seq<Installment>)
    ensures |xs| <= 2 ==> r == xs
    ensures |xs| > 2 && 0 <= index < |xs| ==>
              |r| == |xs| - 1
              && (forall j :: 0 <= j < index ==> r[j].dueDate == xs[j].dueDate)
              && (forall j :: index <= j < |r| ==> r[j].dueDate == xs[j + 1].dueDate)
    ensures |xs| > 2 ==> |r| >= 2 && Total(r) == total
    ensures |xs| > 2 ==> forall j :: 0 <= j < |r| - 1 ==> r[j].amount == total / |r| as real
  {
    if |xs| <= 2 then xs
    else
      var ys := Seqs.RemoveAt(xs, index);
      RebalanceWith(ys, total, ShareAsWritten(total, |ys|))
  }
}
