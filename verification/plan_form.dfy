/** The handlers of the student plan form
    (src/components/StudentPlan/StudentPlanModal.comp.jsx): field edits,
    the regeneration that follows a change of payment mode or total, the
    installment edits, and submission. In View mode every handler leaves the
    form as it is. The handlers that split the total do so as the source
    does; a `...Corrected` variant of each splits in whole cents instead. */
module PlanForm {
  import opened Wrappers
  import opened Installments
  import opened PlanValidation

  /** The `mode` the modal is opened in. */
  datatype Mode = Create | Edit | View

  /** The plan-level inputs `handleChange` writes by name. */
  datatype FieldKey = NameField | DescriptionField | PaymentTypeField
                    | CustomPaymentTypeField | TotalField | ModeField | StatusField

  datatype FieldValue = Text(text: string) | Number(number: real) | Choice(mode: PaymentMode)

  /** One `onChange` of a plan-level input: the input's name and its new value. */
  datatype FieldEdit =
    | SetName(name: string)
    | SetDescription(description: string)
    | SetPaymentType(paymentType: string)
    | SetCustomPaymentType(customPaymentType: string)
    | SetTotal(total: real)
    | SetPaymentMode(paymentMode: PaymentMode)
    | SetStatus(status: string)
  {
    function Key(): FieldKey {
      match this
      case SetName(_) => NameField
      case SetDescription(_) => DescriptionField
      case SetPaymentType(_) => PaymentTypeField
      case SetCustomPaymentType(_) => CustomPaymentTypeField
      case SetTotal(_) => TotalField
      case SetPaymentMode(_) => ModeField
      case SetStatus(_) => StatusField
    }

    function Value(): FieldValue {
      match this
      case SetName(v) => Text(v)
      case SetDescription(v) => Text(v)
      case SetPaymentType(v) => Text(v)
      case SetCustomPaymentType(v) => Text(v)
      case SetTotal(v) => Number(v)
      case SetPaymentMode(v) => Choice(v)
      case SetStatus(v) => Text(v)
    }
  }

  /** The value of the input named `k`. */
  function Field(d: Draft, k: FieldKey): FieldValue {
    match k
    case NameField => Text(d.name)
    case DescriptionField => Text(d.description)
    case PaymentTypeField => Text(d.paymentType)
    case CustomPaymentTypeField => Text(d.customPaymentType)
    case TotalField => Number(d.totalAmount)
    case ModeField => Choice(d.paymentMode)
    case StatusField => Text(d.status)
  }

  /** `handleChange(e)`: in View mode nothing; otherwise the named input takes
      the new value and every other input, and the installment list, keep
      theirs. */
  function HandleChange(mode: Mode, d: Draft, e: FieldEdit): (r: Draft)
    ensures mode == View ==> r == d
    ensures mode != View ==> Field(r, e.Key()) == e.Value()
    ensures forall k :: k != e.Key() ==> Field(r, k) == Field(d, k)
    ensures r.installments == d.installments
  {
    if mode == View then d
    else
      match e
      case SetName(v) => d.(name := v)
      case SetDescription(v) => d.(description := v)
      case SetPaymentType(v) => d.(paymentType := v)
      case SetCustomPaymentType(v) => d.(customPaymentType := v)
      case SetTotal(v) => d.(totalAmount := v)
      case SetPaymentMode(v) => d.(paymentMode := v)
      case SetStatus(v) => d.(status := v)
  }

  /** The number of entries the regeneration effect asks for: as many as
      the plan has, two when it has none. */
  function RegenerationCount(d: Draft): (r: nat)
    ensures r > 0 && (d.installments != [] ==> r == |d.installments|)
  {
    if |d.installments| == 0 then 2 else |d.installments|
  }

  /** The effect that runs when the payment mode or the total changes: an
      installment plan with a positive total is regenerated with as many
      entries as it has (two when it has none), every entry but the last
      taking exactly `total / count`; a one-time plan loses its
      installments; anything else is left alone. Only the installment list
      ever changes. */
  function Regenerate(d: Draft, today: Date): (r: Draft)
    ensures r == d.(installments := r.installments)
    ensures d.paymentMode != OneTime && d.totalAmount > 0.0 ==>
              |r.installments| == RegenerationCount(d)
              && Total(r.installments) == d.totalAmount
              && DatesIncreasing(r.installments)
              && forall i :: 0 <= i < |r.installments| - 1 ==>
                   r.installments[i].amount == d.totalAmount / RegenerationCount(d) as real
    ensures d.paymentMode == OneTime ==> r.installments == []
    ensures d.paymentMode != OneTime && d.totalAmount <= 0.0 ==> r == d
  {
    if d.paymentMode != OneTime && d.totalAmount > 0.0 then
      var count := RegenerationCount(d);
      GeneratedDatesIncrease(d.totalAmount, count, today);
      d.(installments := Generate(d.totalAmount, count, today))
    else if d.paymentMode == OneTime then d.(installments := [])
    else d
  }

  /** The regeneration effect corrected to split in whole cents, otherwise
      as `Regenerate`. */
  function RegenerateCorrected(d: Draft, today: Date): (r: Draft)
    ensures r == d.(installments := r.installments)
    ensures d.paymentMode != OneTime && d.totalAmount > 0.0 ==>
              |r.installments| == RegenerationCount(d)
              && Total(r.installments) == d.totalAmount
              && DatesIncreasing(r.installments)
              && forall i :: 0 <= i < |r.installments| - 1 ==> Money.IsCents(r.installments[i].amount)
    ensures d.paymentMode == OneTime ==> r.installments == []
    ensures d.paymentMode != OneTime && d.totalAmount <= 0.0 ==> r == d
  {
    if d.paymentMode != OneTime && d.totalAmount > 0.0 then
      GeneratedDatesIncrease(d.totalAmount, RegenerationCount(d), today);
      GeneratedCents(d.totalAmount, RegenerationCount(d), today);
      d.(installments := GenerateCorrected(d.totalAmount, RegenerationCount(d), today))
    else if d.paymentMode == OneTime then d.(installments := [])
    else d
  }

  /** A field edit followed by the regeneration effect, which runs only when
      the edit changed the payment mode or the total. */
  function ChangeField(mode: Mode, d: Draft, e: FieldEdit, today: Date): (r: Draft)
    ensures mode == View ==> r == d
    ensures forall k :: k != e.Key() ==> Field(r, k) == Field(d, k)
    ensures mode != View ==> Field(r, e.Key()) == e.Value()
    ensures !e.SetTotal? && !e.SetPaymentMode? ==> r.installments == d.installments
  {
    var c := HandleChange(mode, d, e);
    if c.paymentMode != d.paymentMode || c.totalAmount != d.totalAmount then
      RegenerateKeepsInputs(c, today);
      EditedModeOrTotal(mode, d, e);
      Regenerate(c, today)
    else c
  }

  /** The regeneration effect leaves every plan-level input as it is. */
  lemma RegenerateKeepsInputs(d: Draft, today: Date)
    ensures forall k :: Field(Regenerate(d, today), k) == Field(d, k)
  {
  }

  /** Only an edit of the total or of the payment mode can change either. */
  lemma EditedModeOrTotal(mode: Mode, d: Draft, e: FieldEdit)
    ensures var c := HandleChange(mode, d, e);
            c.paymentMode != d.paymentMode || c.totalAmount != d.totalAmount ==> e.SetTotal? || e.SetPaymentMode?
  {
  }

  /** The installment-list message of a one-time plan, or of a plan with
      fewer than two entries. */
  lemma ShortListMessage(d: Draft, today: Date)
    ensures d.paymentMode == OneTime ==> Expected(d, today, InstallmentsKey) == None
    ensures d.paymentMode != OneTime && |d.installments| < 2 ==>
              Expected(d, today, InstallmentsKey) == Some(AtLeastTwoInstallments)
  {
  }

  /** As written, regenerating a 100.00 installment plan of six entries
      draws "Installments total (100.02) doesn't match plan total". */
  lemma RegeneratedPlanRejectedAsWritten(d: Draft, today: Date)
    requires d.paymentMode != OneTime && d.totalAmount == 100.0 && |d.installments| == 6
    ensures Expected(Regenerate(d, today), today, InstallmentsKey) == Some(TotalMismatch(100.02))
  {
    GeneratedAsWrittenAmounts(100.0, 6, today);
    SixthsMissTotal();
  }

  /** With the whole-cent split, a valid plan regenerated with at least a
      cent per entry passes every rule, and a one-time plan passes exactly
      when its header does; a plan loaded with a single installment is
      regenerated with a single one, which the validator refuses. */
  lemma RegeneratedPlanPassesValidation(d: Draft, today: Date)
    ensures d.paymentMode == OneTime ==>
              (RulesHold(RegenerateCorrected(d, today), today) <==> HeaderRulesHold(d))
    ensures HeaderRulesHold(d) && d.paymentMode != OneTime && |d.installments| != 1
            && d.totalAmount >= 0.01 * RegenerationCount(d) as real ==>
              RulesHold(RegenerateCorrected(d, today), today)
    ensures |d.installments| == 1 && d.paymentMode != OneTime && d.totalAmount > 0.0 ==>
              Expected(RegenerateCorrected(d, today), today, InstallmentsKey)
                == Some(AtLeastTwoInstallments)
  {
    var r := RegenerateCorrected(d, today);
    if HeaderRulesHold(d) && d.paymentMode != OneTime && |d.installments| != 1
       && d.totalAmount >= 0.01 * RegenerationCount(d) as real {
      GeneratedPlanPassesValidation(r, RegenerationCount(d), today);
    } else {
      ShortListMessage(r, today);
    }
  }

  /** `handleInstallmentCountChange(e)`: in View mode nothing; otherwise the
      list is regenerated with the chosen count (the select offers 2 to 12),
      every entry but the last taking exactly `total / count`. */
  function HandleCountChange(mode: Mode, d: Draft, count: nat, today: Date): (r: Draft)
    ensures mode == View ==> r == d
    ensures r == d.(installments := r.installments)
    ensures mode != View ==> |r.installments| == count
    ensures mode != View && count > 0 ==> Total(r.installments) == d.totalAmount
    ensures mode != View ==> DatesIncreasing(r.installments)
    ensures mode != View ==> forall i :: 0 <= i < count - 1 ==>
              r.installments[i].amount == d.totalAmount / count as real
  {
    if mode == View then d
    else
      GeneratedDatesIncrease(d.totalAmount, count, today);
      d.(installments := Generate(d.totalAmount, count, today))
  }

  /** The count change corrected to split in whole cents. */
  function HandleCountChangeCorrected(mode: Mode, d: Draft, count: nat, today: Date): (r: Draft)
    ensures mode == View ==> r == d
    ensures r == d.(installments := r.installments)
    ensures mode != View ==> |r.installments| == count
    ensures mode != View && count > 0 ==> Total(r.installments) == d.totalAmount
    ensures mode != View ==> DatesIncreasing(r.installments)
    ensures mode != View ==> forall i :: 0 <= i < count - 1 ==> Money.IsCents(r.installments[i].amount)
  {
    if mode == View then d
    else
      GeneratedDatesIncrease(d.totalAmount, count, today);
      GeneratedCents(d.totalAmount, count, today);
      d.(installments := GenerateCorrected(d.totalAmount, count, today))
  }

  /** As written, choosing six installments for a 100.00 plan draws the
      sum-mismatch error. */
  lemma CountChangeRejectedAsWritten(mode: Mode, d: Draft, today: Date)
    requires mode != View && d.paymentMode != OneTime && d.totalAmount == 100.0
    ensures Expected(HandleCountChange(mode, d, 6, today), today, InstallmentsKey)
              == Some(TotalMismatch(100.02))
  {
    GeneratedAsWrittenAmounts(100.0, 6, today);
    SixthsMissTotal();
  }

  /** With the whole-cent split, a valid plan given a count of two or more
      with at least a cent per entry passes every rule. */
  lemma CountChangePassesValidation(mode: Mode, d: Draft, count: nat, today: Date)
    requires mode != View && HeaderRulesHold(d)
    requires count >= 2 && d.totalAmount >= 0.01 * count as real
    ensures RulesHold(HandleCountChangeCorrected(mode, d, count, today), today)
  {
    GeneratedPlanPassesValidation(HandleCountChangeCorrected(mode, d, count, today), count, today);
  }

  /** What an installment row's `onChange` carries: the amount input's
      parsed value (`None` when `parseFloat` fails) or the date input's value. */
  datatype InstallmentEdit = AmountInput(parsed: Option<real>) | DateInput(date: Option<Date>)

  /** `handleInstallmentChange(index, field, value)`: in View mode nothing;
      an amount edit rebalances the last entry unless it is the one edited,
      so the schedule still adds up to the total; a date edit touches that
      entry's date alone. */
  function HandleInstallmentChange(mode: Mode, d: Draft, index: nat, e: InstallmentEdit): (r: Draft)
    requires index < |d.installments|
    ensures mode == View ==> r == d
    ensures r == d.(installments := r.installments)
    ensures |r.installments| == |d.installments|
    ensures mode != View && e.AmountInput? && index < |d.installments| - 1 ==>
              Total(r.installments) == d.totalAmount
    ensures mode != View && e.AmountInput? ==> r.installments[index].amount == e.parsed.GetOr(0.0)
    ensures mode != View && e.DateInput? ==>
              r.installments[index].dueDate == e.date
              && Amounts(r.installments) == Amounts(d.installments)
              && forall j :: 0 <= j < |d.installments| && j != index ==>
                   r.installments[j] == d.installments[j]
  {
    if mode == View then d
    else
      match e
      case AmountInput(parsed) =>
        d.(installments := EditAmount(d.installments, index, parsed, d.totalAmount))
      case DateInput(date) =>
        d.(installments := EditDueDate(d.installments, index, date))
  }

  /** A due-date edit never changes the verdict of the sum check, nor any
      amount message. */
  lemma DateEditKeepsAmountChecks(mode: Mode, d: Draft, index: nat, date: Option<Date>, today: Date, i: nat)
    requires index < |d.installments|
    ensures var r := HandleInstallmentChange(mode, d, index, DateInput(date));
            Expected(r, today, InstallmentsKey) == Expected(d, today, InstallmentsKey)
            && Expected(r, today, AmountKey(i)) == Expected(d, today, AmountKey(i))
  {
    var r := HandleInstallmentChange(mode, d, index, DateInput(date));
    assert Amounts(r.installments) == Amounts(d.installments);
    if i < |d.installments| {
      assert r.installments[i].amount == Amounts(r.installments)[i];
    }
  }

  /** `handleDeleteInstallment(index)`: in View mode nothing; otherwise the
      deletion with its two-entry floor and equal re-split, every survivor
      but the last taking exactly `total / length`. */
  function HandleDelete(mode: Mode, d: Draft, index: int): (r: Draft)
    ensures mode == View || |d.installments| <= 2 ==> r == d
    ensures r == d.(installments := r.installments)
    ensures mode != View && |d.installments| > 2 && 0 <= index < |d.installments| ==>
              |r.installments| == |d.installments| - 1
    ensures |r.installments| >= 2 || r == d
    ensures mode != View && |d.installments| > 2 ==>
              Total(r.installments) == d.totalAmount
              && forall j :: 0 <= j < |r.installments| - 1 ==>
                   r.installments[j].amount == d.totalAmount / |r.installments| as real
  {
    if mode == View then d
    else d.(installments := Delete(d.installments, index, d.totalAmount))
  }

  /** The deletion corrected to re-split in whole cents. */
  function HandleDeleteCorrected(mode: Mode, d: Draft, index: int): (r: Draft)
    ensures mode == View || |d.installments| <= 2 ==> r == d
    ensures r == d.(installments := r.installments)
    ensures mode != View && |d.installments| > 2 && 0 <= index < |d.installments| ==>
              |r.installments| == |d.installments| - 1
    ensures |r.installments| >= 2 || r == d
    ensures mode != View && |d.installments| > 2 ==>
              Total(r.installments) == d.totalAmount
              && forall j :: 0 <= j < |r.installments| - 1 ==> Money.IsCents(r.installments[j].amount)
  {
    if mode == View then d
    else d.(installments := DeleteCorrected(d.installments, index, d.totalAmount))
  }

  /** As written, deleting any entry of a seven-entry 100.00 installment
      plan draws the sum-mismatch error. */
  lemma DeleteRejectedAsWritten(mode: Mode, d: Draft, index: int, today: Date)
    requires mode != View && d.paymentMode != OneTime && d.totalAmount == 100.0
    requires |d.installments| == 7 && 0 <= index < 7
    ensures Expected(HandleDelete(mode, d, index), today, InstallmentsKey)
              == Some(TotalMismatch(100.02))
  {
    AsWrittenSplitIsCopies(100.0, 6);
    SixthsMissTotal();
  }

  /** With the whole-cent re-split, deleting from a valid plan whose dates
      are valid and whose total is at least a cent per remaining entry
      leaves a plan that passes every rule. */
  lemma DeletePassesValidation(mode: Mode, d: Draft, index: int, today: Date)
    requires mode != View && HeaderRulesHold(d)
    requires |d.installments| > 2 && 0 <= index < |d.installments|
    requires DatesValid(d.installments, today)
    requires d.totalAmount >= 0.01 * (|d.installments| - 1) as real
    ensures RulesHold(HandleDeleteCorrected(mode, d, index), today)
  {
    DeletedPlanPassesValidation(HandleDeleteCorrected(mode, d, index), d.installments, index, today);
  }

  datatype HttpMethod = Post | Put

  /** The request `handleSubmit` sends: the plan id in the path for an edit,
      and the form as the body with the custom type standing in for "other". */
  datatype Request = Request(httpMethod: HttpMethod, planId: Option<string>, body: Draft)

  datatype SubmitOutcome =
    | Closed                                  // View mode: closed, nothing checked or sent
    | Refused(errors: map<ErrorKey, Message>) // validation failed; nothing sent
    | Sent(request: Request, closed: bool)    // sent; the modal closes when the server accepts

  /** The payment type a request carries. */
  function SentPaymentType(d: Draft): (r: string)
    ensures d.paymentType == "other" ==> r == d.customPaymentType
    ensures d.paymentType != "other" ==> r == d.paymentType
  {
    if d.paymentType == "other" then d.customPaymentType else d.paymentType
  }

  /** `handleSubmit(e)`: View mode closes without validating; otherwise an
      invalid form is refused with its messages and nothing is sent; a valid
      one is sent with PUT to the plan's address in Edit mode and POST
      otherwise, and the modal closes only when the server accepts. */
  method Submit(mode: Mode, d: Draft, planId: Option<string>, today: Date, serverOk: bool)
    returns (outcome: SubmitOutcome)
    ensures mode == View <==> outcome == Closed
    ensures mode != View && !RulesHold(d, today) ==>
              outcome.Refused? && outcome.errors != map[] && Matches(outcome.errors, d, today)
    ensures mode != View && RulesHold(d, today) ==> outcome.Sent?
    ensures outcome.Sent? ==>
              && RulesHold(d, today)
              && outcome.request.httpMethod == (if mode == Edit then Put else Post)
              && outcome.request.planId == (if mode == Edit then planId else None)
              && outcome.request.body == d.(paymentType := SentPaymentType(d))
              && outcome.closed == serverOk
  {
    if mode == View {
      return Closed;
    }
    var errors := Validate(d, today);
    if errors != map[] {
      return Refused(errors);
    }
    var body := d.(paymentType := if d.paymentType == "other" then d.customPaymentType else d.paymentType);
    var request := if mode == Edit then Request(Put, planId, body) else Request(Post, None, body);
    return Sent(request, serverOk);
  }
}
