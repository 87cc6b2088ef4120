/** The plan draft and `validateForm`
    (src/components/StudentPlan/StudentPlanModal.comp.jsx): a field-keyed
    map of error messages, empty exactly when the draft may be submitted. */
module PlanValidation {
  import opened Wrappers
  import opened Text
  import opened Money
  import opened Installments

  datatype PaymentMode = OneTime | ByInstallments | Both

  /** The form state of one plan. `totalAmount` is the numeric value of the
      total's number input (an empty input reads as 0). */
  datatype Draft = Draft(
    name: string,
    description: string,
    paymentType: string,
    customPaymentType: string,
    totalAmount: real,
    paymentMode: PaymentMode,
    status: string,
    installments: seq<Installment>)

  /** The keys of `newErrors`; `AmountKey(i)` is `installment-{i}-amount` and
      `DateKey(i)` is `installment-{i}-date`. */
  datatype ErrorKey =
    | NameKey | TotalAmountKey | PaymentTypeKey | CustomPaymentTypeKey | InstallmentsKey
    | AmountKey(index: nat) | DateKey(index: nat)

  datatype Message =
    | PlanNameRequired        // "Plan name is required"
    | ValidTotalRequired      // "Valid total amount is required"
    | PaymentTypeRequired     // "Payment type is required"
    | SpecifyPaymentType      // "Please specify the payment type"
    | AtLeastTwoInstallments  // "At least 2 installments are required"
    | TotalMismatch(sum: real) // "Installments total ({sum}) doesn't match plan total"
    | AmountNotPositive       // "Amount must be greater than 0"
    | DueDateRequired         // "Due date is required"
    | DuplicateDueDate        // "Duplicate due date"
    | DueDateInPast           // "Due date cannot be in the past"

  /** The validator's running sum: each amount rounded to cents, and the
      running total rounded again after every addition. */
  function RoundedSum(xs: seq<real>): real {
    if xs == [] then 0.0 else Round2(RoundedSum(xs[..|xs| - 1]) + Round2(xs[|xs| - 1]))
  }

  /** Some entry before `i` is due on `dt`. */
  predicate SeenBefore(xs: seq<Installment>, i: nat, dt: Date)
    requires i <= |xs|
  {
    exists j :: 0 <= j < i && xs[j].dueDate == Some(dt)
  }

  /** The date rule for entry `i`: a missing date is required; a past date is
      reported as such even when it also repeats an earlier one; a repeat of
      an earlier date is a duplicate; the first occurrence is never flagged. */
  function DateMessage(xs: seq<Installment>, i: nat, today: Date): Option<Message>
    requires i < |xs|
  {
    match xs[i].dueDate
    case None => Some(DueDateRequired)
    case Some(dt) =>
      if Before(dt, today) then Some(DueDateInPast)
      else if SeenBefore(xs, i, dt) then Some(DuplicateDueDate)
      else None
  }

  /** Per-installment checks run only for an installment plan with at least
      two entries. */
  predicate ChecksEntries(d: Draft) {
    d.paymentMode != OneTime && |d.installments| >= 2
  }

  /** The rule table: the message each key carries, if any. */
  function Expected(d: Draft, today: Date, k: ErrorKey): Option<Message> {
    var xs := d.installments;
    match k
    case NameKey => if IsBlank(d.name) then Some(PlanNameRequired) else None
    case TotalAmountKey => if d.totalAmount <= 0.0 then Some(ValidTotalRequired) else None
    case PaymentTypeKey => if d.paymentType == "" then Some(PaymentTypeRequired) else None
    case CustomPaymentTypeKey =>
      if d.paymentType == "other" && IsBlank(d.customPaymentType) then Some(SpecifyPaymentType)
      else None
    case InstallmentsKey =>
      if d.paymentMode == OneTime then None
      else if |xs| < 2 then Some(AtLeastTwoInstallments)
      else
        var sum := RoundedSum(Amounts(xs));
        if Abs(Round2(sum - d.totalAmount)) > 0.01 then Some(TotalMismatch(sum)) else None
    case AmountKey(i) =>
      if ChecksEntries(d) && i < |xs| && xs[i].amount <= 0.0 then Some(AmountNotPositive)
      else None
    case DateKey(i) =>
      if ChecksEntries(d) && i < |xs| then DateMessage(xs, i, today) else None
  }

  /** Every entry has a due date that is neither past nor shared with
      another entry. */
  predicate DatesValid(xs: seq<Installment>, today: Date) {
    && (forall i :: 0 <= i < |xs| ==>
          xs[i].dueDate.Some? && !Before(xs[i].dueDate.value, today))
    && (forall i, j :: 0 <= i < j < |xs| ==> xs[i].dueDate != xs[j].dueDate)
  }

  /** Every entry has a positive amount and a valid due date. */
  predicate EntryRulesHold(xs: seq<Installment>, today: Date) {
    && (forall i :: 0 <= i < |xs| ==> xs[i].amount > 0.0)
    && DatesValid(xs, today)
  }

  /** The name, total and payment-type rules, which do not look at the
      installments. */
  predicate HeaderRulesHold(d: Draft) {
    && !IsBlank(d.name)
    && d.totalAmount > 0.0
    && d.paymentType != ""
    && !(d.paymentType == "other" && IsBlank(d.customPaymentType))
  }

  /** The plan passes every rule: the conditions under which the source
      submits, stated without the error map. */
  predicate RulesHold(d: Draft, today: Date) {
    var xs := d.installments;
    && HeaderRulesHold(d)
    && (d.paymentMode != OneTime ==>
          && |xs| >= 2
          && EntryRulesHold(xs, today)
          && Abs(Round2(RoundedSum(Amounts(xs)) - d.totalAmount)) <= 0.01)
  }

  /** Entry checks that draw no message leave every entry positive, dated,
      not past and distinct from all earlier dates. */
  lemma NoEntryMessageImpliesEntryRules(d: Draft, today: Date)
    requires ChecksEntries(d)
    requires forall i :: Expected(d, today, AmountKey(i)).None? && Expected(d, today, DateKey(i)).None?
    ensures EntryRulesHold(d.installments, today)
  {
    var xs := d.installments;
    forall i | 0 <= i < |xs|
      ensures xs[i].amount > 0.0
      ensures xs[i].dueDate.Some? && !Before(xs[i].dueDate.value, today)
    {
      assert Expected(d, today, AmountKey(i)).None?;
      assert Expected(d, today, DateKey(i)).None?;
    }
    forall i, j | 0 <= i < j < |xs| ensures xs[i].dueDate != xs[j].dueDate {
      assert Expected(d, today, DateKey(j)).None?;
      assert !SeenBefore(xs, j, xs[j].dueDate.value);
    }
  }

  lemma NoMessageImpliesRules(d: Draft, today: Date)
    requires forall k :: Expected(d, today, k).None?
    ensures RulesHold(d, today)
  {
    assert Expected(d, today, NameKey).None?;
    assert Expected(d, today, TotalAmountKey).None?;
    assert Expected(d, today, PaymentTypeKey).None?;
    assert Expected(d, today, CustomPaymentTypeKey).None?;
    if d.paymentMode != OneTime {
      assert Expected(d, today, InstallmentsKey).None?;
      NoEntryMessageImpliesEntryRules(d, today);
    }
  }

  lemma RulesImplyNoMessage(d: Draft, today: Date, k: ErrorKey)
    requires RulesHold(d, today)
    ensures Expected(d, today, k).None?
  {
  }

  /** No rule of the table fires exactly when the plan passes every rule. */
  lemma NoMessageIffRulesHold(d: Draft, today: Date)
    ensures (forall k :: Expected(d, today, k).None?) <==> RulesHold(d, today)
  {
    if forall k :: Expected(d, today, k).None? {
      NoMessageImpliesRules(d, today);
    }
    if RulesHold(d, today) {
      forall k ensures Expected(d, today, k).None? {
        RulesImplyNoMessage(d, today, k);
      }
    }
  }

  /** `errors` carries exactly the rule table's messages. */
  ghost predicate Matches(errors: map<ErrorKey, Message>, d: Draft, today: Date) {
    forall k :: (k in errors <==> Expected(d, today, k).Some?)
                && (k in errors ==> Expected(d, today, k) == Some(errors[k]))
  }

  /** A message map matches the rule table exactly when it is empty exactly
      when the plan passes every rule. */
  lemma MatchingMapEmptyIffRulesHold(errors: map<ErrorKey, Message>, d: Draft, today: Date)
    requires Matches(errors, d, today)
    ensures errors == map[] <==> RulesHold(d, today)
  {
    NoMessageIffRulesHold(d, today);
    if errors != map[] {
      var k :| k in errors;
      assert Expected(d, today, k).Some?;
    }
  }

  /** Sets `k` to the message when a rule fired. */
  function Put(errors: map<ErrorKey, Message>, k: ErrorKey, m: Option<Message>)
    : (r: map<ErrorKey, Message>)
    ensures m.Some? ==> r == errors[k := m.value]
    ensures m.None? ==> r == errors
  {
    if m.Some? then errors[k := m.value] else errors
  }

  /** The four plan-level checks, in the source's order. */
  function HeaderErrors(d: Draft, today: Date): map<ErrorKey, Message> {
    var e1 := Put(map[], NameKey, Expected(d, today, NameKey));
    var e2 := Put(e1, TotalAmountKey, Expected(d, today, TotalAmountKey));
    var e3 := Put(e2, PaymentTypeKey, Expected(d, today, PaymentTypeKey));
    Put(e3, CustomPaymentTypeKey, Expected(d, today, CustomPaymentTypeKey))
  }

  /** The rule table restricted to what `validateForm` has set before entry
      `i` of its per-installment loop: plan-level keys in full, entry keys
      below `i`, and the sum check not yet made. */
  function PartialExpected(d: Draft, today: Date, i: nat, k: ErrorKey): Option<Message> {
    match k
    case InstallmentsKey => None
    case AmountKey(idx) => if idx < i then Expected(d, today, k) else None
    case DateKey(idx) => if idx < i then Expected(d, today, k) else None
    case _ => Expected(d, today, k)
  }

  ghost predicate Agrees(errors: map<ErrorKey, Message>, d: Draft, today: Date, i: nat) {
    forall k :: (k in errors <==> PartialExpected(d, today, i, k).Some?)
                && (k in errors ==> PartialExpected(d, today, i, k) == Some(errors[k]))
  }

  lemma HeaderAgrees(d: Draft, today: Date)
    ensures Agrees(HeaderErrors(d, today), d, today, 0)
  {
    var e := HeaderErrors(d, today);
    forall k ensures (k in e <==> PartialExpected(d, today, 0, k).Some?)
                     && (k in e ==> PartialExpected(d, today, 0, k) == Some(e[k]))
    {
      match k
      case NameKey =>
      case TotalAmountKey =>
      case PaymentTypeKey =>
      case CustomPaymentTypeKey =>
      case InstallmentsKey =>
      case AmountKey(_) =>
      case DateKey(_) =>
    }
  }

  /** One turn of the per-installment loop extends the agreement by one entry. */
  lemma EntryStepAgrees(errors: map<ErrorKey, Message>, d: Draft, today: Date, i: nat)
    requires i < |d.installments|
    requires Agrees(errors, d, today, i)
    ensures Agrees(Put(Put(errors, AmountKey(i), Expected(d, today, AmountKey(i))),
                       DateKey(i), Expected(d, today, DateKey(i))), d, today, i + 1)
  {
  }

  /** Adding the sum check's message after the loop completes the table. */
  lemma FinalMatches(errors: map<ErrorKey, Message>, d: Draft, today: Date, n: nat, m: Option<Message>)
    requires ChecksEntries(d) ==> n == |d.installments|
    requires Agrees(errors, d, today, n)
    requires m == Expected(d, today, InstallmentsKey)
    ensures Matches(Put(errors, InstallmentsKey, m), d, today)
  {
  }

  /** The validator's running sum after one more entry. */
  lemma RoundedSumStep(xs: seq<Installment>, i: nat)
    requires i < |xs|
    ensures RoundedSum(Amounts(xs[..i + 1])) == Round2(RoundedSum(Amounts(xs[..i])) + Round2(xs[i].amount))
  {
    assert Amounts(xs[..i + 1])[..i] == Amounts(xs[..i]);
  }

  /** The dates seen before entry `i + 1` are those seen before entry `i`
      plus entry `i`'s own date. */
  lemma SeenStep(xs: seq<Installment>, i: nat, dt: Date)
    requires i < |xs|
    ensures SeenBefore(xs, i + 1, dt) <==> SeenBefore(xs, i, dt) || xs[i].dueDate == Some(dt)
  {
    if SeenBefore(xs, i + 1, dt) && xs[i].dueDate != Some(dt) {
      var j :| 0 <= j < i + 1 && xs[j].dueDate == Some(dt);
      assert j < i;
    }
  }

  /** The per-installment loop of `validateForm()`: flags every entry's
      amount and date in turn, remembering the dates seen so far (a repeat is
      flagged from its second occurrence on, and a past date overrides the
      duplicate message), and returns the running rounded sum. */
  method CheckEntries(d: Draft, today: Date, errors0: map<ErrorKey, Message>)
    returns (errors: map<ErrorKey, Message>, sum: real)
    requires ChecksEntries(d)
    requires Agrees(errors0, d, today, 0)
    ensures Agrees(errors, d, today, |d.installments|)
    ensures sum == RoundedSum(Amounts(d.installments))
  {
    var xs := d.installments;
    errors, sum := errors0, 0.0;
    var seen: set<Date> := {};
    var n := 0;
    assert Amounts(xs[..0]) == [];
    while n < |xs|
      invariant n <= |xs|
      invariant sum == RoundedSum(Amounts(xs[..n]))
      invariant forall dt :: dt in seen <==> SeenBefore(xs, n, dt)
      invariant Agrees(errors, d, today, n)
    {
      var x := xs[n];
      var amountMessage: Option<Message> := None;
      if x.amount <= 0.0 {
        amountMessage := Some(AmountNotPositive);
      }
      RoundedSumStep(xs, n);
      sum := Round2(sum + Round2(x.amount));
      var dateMessage: Option<Message> := None;
      match x.dueDate {
        case None =>
          dateMessage := Some(DueDateRequired);
        case Some(dt) =>
          if dt in seen {
            dateMessage := Some(DuplicateDueDate);
          }
          seen := seen + {dt};
          if Before(dt, today) {
            dateMessage := Some(DueDateInPast);
          }
      }
      assert amountMessage == Expected(d, today, AmountKey(n));
      assert dateMessage == Expected(d, today, DateKey(n));
      EntryStepAgrees(errors, d, today, n);
      errors := Put(Put(errors, AmountKey(n), amountMessage), DateKey(n), dateMessage);
      forall dt ensures dt in seen <==> SeenBefore(xs, n + 1, dt) {
        SeenStep(xs, n, dt);
      }
      n := n + 1;
    }
    assert xs[..n] == xs;
  }

  /** The installment part of `validateForm()`, run after the plan-level
      checks: nothing for a one-time plan, the two-entry minimum, or the
      per-entry checks followed by the sum check. */
  method CheckInstallments(d: Draft, today: Date, errors0: map<ErrorKey, Message>)
    returns (errors: map<ErrorKey, Message>)
    requires Agrees(errors0, d, today, 0)
    ensures Matches(errors, d, today)
  {
    errors := errors0;
    var xs := d.installments;
    var n := 0;
    var sumMessage: Option<Message> := None;
    if d.paymentMode == OneTime {
      assert Expected(d, today, InstallmentsKey) == None;
    } else if |xs| < 2 {
      sumMessage := Some(AtLeastTwoInstallments);
      assert Expected(d, today, InstallmentsKey) == sumMessage;
    } else {
      var sum;
      errors, sum := CheckEntries(d, today, errors);
      n := |xs|;
      if Abs(Round2(sum - d.totalAmount)) > 0.01 {
        sumMessage := Some(TotalMismatch(sum));
      }
      assert Expected(d, today, InstallmentsKey) == sumMessage;
    }
    FinalMatches(errors, d, today, n, sumMessage);
    errors := Put(errors, InstallmentsKey, sumMessage);
  }

  /** `validateForm()`: every key of the result carries exactly the message
      the rule table gives it (so a repeated date is flagged only from its
      second occurrence on, and a past date overrides the duplicate message),
      and the result is empty exactly when the plan passes every rule. */
  method Validate(d: Draft, today: Date) returns (errors: map<ErrorKey, Message>)
    ensures Matches(errors, d, today)
    ensures errors == map[] <==> RulesHold(d, today)
  {
    HeaderAgrees(d, today);
    errors := CheckInstallments(d, today, HeaderErrors(d, today));
    MatchingMapEmptyIffRulesHold(errors, d, today);
  }

  /** `k` copies of an amount that rounds to `m` cents, summed the
      validator's way, come to `k * m` cents. */
  lemma {:induction false} RoundedSumOfCopies(k: nat, c: real, m: int)
    requires Round2(c) == m as real / 100.0
    ensures RoundedSum(seq(k, _ => c)) == (k * m) as real / 100.0
  {
    if k > 0 {
      var xs := seq(k, _ => c);
      assert xs[..k - 1] == seq(k - 1, _ => c);
      RoundedSumOfCopies(k - 1, c, m);
      AddCents((k - 1) * m, m);
      assert (k - 1) * m + m == k * m;
    }
  }

  /** As written, an equal split is `n` copies of `total / n` to the
      validator, because the last part `total - share * (n - 1)` equals the
      share exactly. */
  lemma AsWrittenSplitIsCopies(total: real, n: nat)
    requires n > 0
    ensures SplitAmounts(total, ShareAsWritten(total, n), n) == seq(n, _ => total / n as real)
  {
    var q := total / n as real;
    var a := SplitAmounts(total, q, n);
    assert total - q * (n - 1) as real == q;
    forall i | 0 <= i < n ensures a[i] == q {
    }
  }

  /** As written, a generated schedule is `count` copies of `total / count`. */
  lemma GeneratedAsWrittenAmounts(total: real, count: nat, today: Date)
    requires count > 0
    ensures Amounts(Generate(total, count, today)) == seq(count, _ => total / count as real)
  {
    AsWrittenSplitIsCopies(total, count);
  }

  /** Six parts of 100 / 6 each round to 16.67 and add up to 100.02, which
      misses 100 by two cents. */
  lemma SixthsMissTotal()
    ensures RoundedSum(seq(6, _ => 100.0 / 6.0)) == 100.02
    ensures Abs(Round2(100.02 - 100.0)) > 0.01
  {
    assert (100.0 * (100.0 / 6.0) + 0.5).Floor == 1667;
    assert Round2(100.0 / 6.0) == 1667 as real / 100.0;
    RoundedSumOfCopies(6, 100.0 / 6.0, 1667);
    assert (100.0 * (100.02 - 100.0) + 0.5).Floor == 2;
    assert Round2(100.02 - 100.0) == 0.02;
  }

  /** As written: a 100.00 plan split into 6 generated installments is
      refused with "Installments total (100.02) doesn't match plan total",
      because each of the six parts of 16.666... rounds to 16.67. */
  lemma GeneratedPlanRejectedAsWritten(name: string, today: Date)
    ensures var d := Draft(name, "", "tuition", "", 100.0, ByInstallments, "active",
                           Generate(100.0, 6, today));
            Expected(d, today, InstallmentsKey) == Some(TotalMismatch(100.02))
  {
    GeneratedAsWrittenAmounts(100.0, 6, today);
    SixthsMissTotal();
  }

  /** As written: deleting any entry of a seven-entry 100.00 plan leaves six
      parts of 100 / 6 and the same refusal. */
  lemma DeletedPlanRejectedAsWritten(name: string, xs: seq<Installment>, index: int, today: Date)
    requires |xs| == 7 && 0 <= index < 7
    ensures var d := Draft(name, "", "tuition", "", 100.0, ByInstallments, "active",
                           Delete(xs, index, 100.0));
            Expected(d, today, InstallmentsKey) == Some(TotalMismatch(100.02))
  {
    AsWrittenSplitIsCopies(100.0, 6);
    SixthsMissTotal();
  }

  /** The validator's sum of all but the last part of an equal split with
      a whole-cent share is exact. */
  lemma SplitPrefixSum(total: real, share: real, n: nat)
    requires n > 0 && IsCents(share)
    ensures RoundedSum(SplitAmounts(total, share, n)[..n - 1]) == share * (n - 1) as real
  {
    var m := CentsOf(share);
    CentsOfCents(share);
    Round2OfCents(share);
    assert SplitAmounts(total, share, n)[..n - 1] == seq(n - 1, _ => share);
    RoundedSumOfCopies(n - 1, share, m);
    TimesCents(share, n - 1, m);
  }

  /** An equal split with a whole-cent share, summed the validator's way,
      never misses its total by more than the tolerance. */
  lemma SplitWithinTolerance(total: real, share: real, n: nat)
    requires n > 0 && IsCents(share)
    ensures Abs(Round2(RoundedSum(SplitAmounts(total, share, n)) - total)) <= 0.01
  {
    var a := SplitAmounts(total, share, n);
    var prefix := share * (n - 1) as real;
    SplitPrefixSum(total, share, n);
    assert RoundedSum(a) == Round2(RoundedSum(a[..n - 1]) + Round2(a[n - 1]));
    AbsorbedSplitWithinTolerance(total, share, n);
  }

  /** A schedule whose parts but the last are the whole-cent share and
      which adds up to the total is, to the validator, the split of the total
      with that share. */
  lemma EqualSplitAmounts(xs: seq<Installment>, total: real)
    requires |xs| > 0
    requires forall i :: 0 <= i < |xs| - 1 ==> xs[i].amount == ShareCorrected(total, |xs|)
    requires Total(xs) == total
    ensures Amounts(xs) == SplitAmounts(total, ShareCorrected(total, |xs|), |xs|)
  {
    var n := |xs|;
    var share := ShareCorrected(total, n);
    assert Amounts(xs[..n - 1]) == seq(n - 1, _ => share);
    SumOfCopies(n - 1, share);
    TotalSplitsOffLast(xs);
  }

  /** An installment plan whose entries are split equally with the
      whole-cent share never draws the sum-mismatch error. */
  lemma EqualSplitPassesSumCheck(d: Draft, today: Date)
    requires d.paymentMode != OneTime && |d.installments| >= 2
    requires forall i :: 0 <= i < |d.installments| - 1 ==>
               d.installments[i].amount == ShareCorrected(d.totalAmount, |d.installments|)
    requires Total(d.installments) == d.totalAmount
    ensures Expected(d, today, InstallmentsKey) == None
  {
    var n := |d.installments|;
    EqualSplitAmounts(d.installments, d.totalAmount);
    SplitWithinTolerance(d.totalAmount, ShareCorrected(d.totalAmount, n), n);
  }

  /** Hence a generated installment plan never draws the sum-mismatch error. */
  lemma GeneratedPlanPassesSumCheck(d: Draft, count: nat, today: Date)
    requires count >= 2
    requires d.installments == GenerateCorrected(d.totalAmount, count, today)
    ensures Expected(d, today, InstallmentsKey) == None
  {
    if d.paymentMode != OneTime {
      EqualSplitPassesSumCheck(d, today);
    }
  }

  /** Nor does a plan just rebalanced by a deletion. */
  lemma DeletedPlanPassesSumCheck(d: Draft, xs: seq<Installment>, index: int, today: Date)
    requires |xs| > 2
    requires d.installments == DeleteCorrected(xs, index, d.totalAmount)
    ensures Expected(d, today, InstallmentsKey) == None
  {
    if d.paymentMode != OneTime {
      EqualSplitPassesSumCheck(d, today);
    }
  }

  /** A draft with a valid header, at least two entries, positive amounts,
      valid dates and no installment-list message passes every rule. */
  lemma RulesFromParts(d: Draft, today: Date)
    requires HeaderRulesHold(d) && |d.installments| >= 2
    requires forall i :: 0 <= i < |d.installments| ==> d.installments[i].amount > 0.0
    requires DatesValid(d.installments, today)
    requires Expected(d, today, InstallmentsKey) == None
    ensures RulesHold(d, today)
  {
  }

  /** A whole-cent equal split of a total of at least a cent per entry has
      only positive amounts. */
  lemma EqualSplitPositive(xs: seq<Installment>, total: real)
    requires |xs| > 0 && total >= 0.01 * |xs| as real
    requires forall i :: 0 <= i < |xs| - 1 ==> xs[i].amount == ShareCorrected(total, |xs|)
    requires Total(xs) == total
    ensures forall i :: 0 <= i < |xs| ==> xs[i].amount > 0.0
  {
    EqualSplitAmounts(xs, total);
    CorrectedPartsPositive(total, |xs|);
    forall i | 0 <= i < |xs| ensures xs[i].amount > 0.0 {
      assert xs[i].amount == Amounts(xs)[i];
    }
  }

  /** A generated schedule's due dates are valid from `today` on. */
  lemma GeneratedDatesValid(total: real, count: nat, today: Date)
    ensures DatesValid(GenerateCorrected(total, count, today), today)
  {
    var g := GenerateCorrected(total, count, today);
    GeneratedDatesIncrease(total, count, today);
    forall i | 0 <= i < count
      ensures g[i].dueDate.Some? && !Before(g[i].dueDate.value, today)
    {
      assert g[i].dueDate == Some(AddMonths(today, i));
    }
  }

  /** A valid draft of at least a cent per installment whose schedule was
      generated with the whole-cent share passes every rule. */
  lemma GeneratedPlanPassesValidation(d: Draft, count: nat, today: Date)
    requires HeaderRulesHold(d)
    requires count >= 2 && d.totalAmount >= 0.01 * count as real
    requires d.installments == GenerateCorrected(d.totalAmount, count, today)
    ensures RulesHold(d, today)
  {
    if d.paymentMode != OneTime {
      GeneratedPlanPassesSumCheck(d, count, today);
      EqualSplitPositive(d.installments, d.totalAmount);
      GeneratedDatesValid(d.totalAmount, count, today);
      RulesFromParts(d, today);
    }
  }

  /** Deleting an entry keeps the survivors' due dates valid. */
  lemma SurvivorDatesValid(xs: seq<Installment>, index: int, total: real, today: Date)
    requires |xs| > 2 && 0 <= index < |xs| && DatesValid(xs, today)
    ensures DatesValid(DeleteCorrected(xs, index, total), today)
  {
    var r := DeleteCorrected(xs, index, total);
    forall i | 0 <= i < |r|
      ensures r[i].dueDate.Some? && !Before(r[i].dueDate.value, today)
    {
      var k := if i < index then i else i + 1;
      assert r[i].dueDate == xs[k].dueDate;
    }
    forall i, j | 0 <= i < j < |r| ensures r[i].dueDate != r[j].dueDate {
      var ki := if i < index then i else i + 1;
      var kj := if j < index then j else j + 1;
      assert r[i].dueDate == xs[ki].dueDate && r[j].dueDate == xs[kj].dueDate;
    }
  }

  /** A valid draft whose dates were valid before the deletion and whose
      total is at least a cent per remaining installment passes every rule
      once the deletion has re-split it in whole cents. */
  lemma DeletedPlanPassesValidation(d: Draft, xs: seq<Installment>, index: int, today: Date)
    requires HeaderRulesHold(d)
    requires |xs| > 2 && 0 <= index < |xs| && DatesValid(xs, today)
    requires d.totalAmount >= 0.01 * (|xs| - 1) as real
    requires d.installments == DeleteCorrected(xs, index, d.totalAmount)
    ensures RulesHold(d, today)
  {
    if d.paymentMode != OneTime {
      DeletedPlanPassesSumCheck(d, xs, index, today);
      EqualSplitPositive(d.installments, d.totalAmount);
      SurvivorDatesValid(xs, index, d.totalAmount, today);
      RulesFromParts(d, today);
    }
  }
}
