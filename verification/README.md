# maynies_admin form logic in Dafny

The admin dashboard lets staff do five things, and this project models the client-side state logic behind each of them. Each handler is modelled as a pure function from the old state to the new one, doing what the source does. Where the source splits a plan total, a separately named `…Corrected` variant models the fix described under "## Findings". Amounts are exact reals, dates are abstract, and server outcomes are parameters.

- **Student payment plans.** Staff create, edit and view plans with an installment schedule (`StudentPlanModal.comp.jsx`).
- **Plan lists.** Staff browse plans and a plan's enrollments with paging and filters (`StudentPlans.comp.jsx`, `StudentPlanEnrollmentsModal.comp.jsx`).
- **Form templates.** Staff build form templates from fields and options (`CreateFormModal.jsx`).
- **Submissions.** Staff review the submissions made against a template (`SubmissionFormModal.jsx`).
- **Courses.** Staff assemble courses from scalar inputs, tags and materials (`AddCourse.jsx` and its near-copy `Users.jsx`).

The project is split into these modules:

- `wrappers.dfy` (`Wrappers`): `Option`.
- `seqs.dfy` (`Seqs`): remove-at-index and remove-all-equal.
- `text.dfy` (`Text`): `trim` and blankness.
- `money.dfy` (`Money`): the validator's cent rounding `round2`, sums, and the equal split whose last part absorbs the remainder.
- `installments.dfy` (`Installments`): schedule generation, per-entry edits and deletion.
- `plan_validation.dfy` (`PlanValidation`): the plan draft, `validateForm` as a method proved equal key by key to a declarative rule table, the sum-tolerance finding below, and the proof that the corrected schedules pass every rule.
- `plan_form.dfy` (`PlanForm`): the plan form handlers, the regeneration effect, mode gating and the submit payload.
- `form_builder.dfy` (`FormBuilder`): the template builder and its ordered submit checks.
- `enrollments.dfy` (`Enrollments`): the pagination window and label, fallback pagination, filters and the status-selector map.
- `plan_list.dfy` (`PlanList`): the plan list query, parameter filtering, paging and delete guards.
- `course_form.dfy` (`CourseForm`): the course form.
- `submissions.dfy` (`Submissions`): submission review.

## Model

| member | source | states |
|---|---|---|
| Money.Round2 | src/components/StudentPlan/StudentPlanModal.comp.jsx:3 | the result is a whole number of cents, within half a cent of the input, with halves rounding up |
| Money.Round2OfCents | src/components/StudentPlan/StudentPlanModal.comp.jsx:3 | rounding an amount that is already whole cents leaves it unchanged |
| Money.SplitAmounts | src/components/StudentPlan/StudentPlanModal.comp.jsx:95-97 | an n-part split gives every part but the last the share; the last part takes the remainder, so the parts add up to the total |
| Money.SumOfCopies | src/components/StudentPlan/StudentPlanModal.comp.jsx:126-128 | the left-to-right sum of k copies of an amount is k times it |
| Money.ShareCorrected | src/components/StudentPlan/StudentPlanModal.comp.jsx:86 | (corrected) the share rounded down to whole cents: less than a cent below total / n and never above it, and at least a cent when the total is at least a cent per part |
| Money.CorrectedPartsPositive | src/components/StudentPlan/StudentPlanModal.comp.jsx:86-97 | (corrected) with at least a cent per part, every part of the whole-cent split is positive, the last included |
| Money.AbsorbedSplitWithinTolerance | src/components/StudentPlan/StudentPlanModal.comp.jsx:199-215 | with a whole-cent share, the rounded prefix plus the rounded last part misses the total by at most a cent |
| Installments.AddMonths | src/components/StudentPlan/StudentPlanModal.comp.jsx:91-92 | advancing by k > 0 months gives a strictly later date on the same day of the month |
| Installments.TotalSplitsOffLast | src/components/StudentPlan/StudentPlanModal.comp.jsx:126-131 | a schedule's total is the total of all but the last entry plus the last entry |
| Installments.Schedule | src/components/StudentPlan/StudentPlanModal.comp.jsx:90-100 | entry i carries the i-th amount and is due i months after the start |
| Installments.Generate | src/components/StudentPlan/StudentPlanModal.comp.jsx:85-103 | count entries, due monthly from today; all but the last take exactly total / count and the last absorbs the rest, so they add up to the total |
| Installments.GenerateCorrected | src/components/StudentPlan/StudentPlanModal.comp.jsx:85-103 | (corrected) the same schedule with the whole-cent share for all but the last entry; it still adds up to the total |
| Installments.GeneratedCents | src/components/StudentPlan/StudentPlanModal.comp.jsx:86 | (corrected) every part of the corrected schedule but the last is whole cents |
| Installments.GeneratedDatesIncrease | src/components/StudentPlan/StudentPlanModal.comp.jsx:87-98 | both generated schedules have strictly increasing due dates, so no two entries share a date |
| Installments.EditAmount | src/components/StudentPlan/StudentPlanModal.comp.jsx:119-132 | the edited entry takes the parsed amount (0 if unparsable); editing a non-last entry keeps the other non-last entries and resets the last entry so the total is restored; editing the last entry touches nothing else |
| Installments.EditDueDate | src/components/StudentPlan/StudentPlanModal.comp.jsx:133-135 | only the chosen entry's date changes; every amount and every other entry is kept |
| Installments.RebalanceWith | src/components/StudentPlan/StudentPlanModal.comp.jsx:160-166 | the amounts become the equal split for the given share; due dates are kept |
| Installments.RebalanceCorrected | src/components/StudentPlan/StudentPlanModal.comp.jsx:160-166 | (corrected) the amounts add up to the total, all but the last equal the whole-cent share, and due dates are kept |
| Installments.Delete | src/components/StudentPlan/StudentPlanModal.comp.jsx:149-169 | with two or fewer entries nothing changes; otherwise exactly the entry at the index goes, the survivors keep their order and dates, all but the last take exactly total / length and the amounts add up to the total |
| Installments.DeleteCorrected | src/components/StudentPlan/StudentPlanModal.comp.jsx:149-169 | (corrected) the same deletion, re-split with the whole-cent share |
| PlanValidation.NoEntryMessageImpliesEntryRules | src/components/StudentPlan/StudentPlanModal.comp.jsx:192-213 | if no entry draws an amount or date message, every amount is positive and every date is present, not past and unrepeated |
| PlanValidation.NoMessageImpliesRules | src/components/StudentPlan/StudentPlanModal.comp.jsx:177-219 | if no rule of the table fires, the plan satisfies every validation condition |
| PlanValidation.RulesImplyNoMessage | src/components/StudentPlan/StudentPlanModal.comp.jsx:177-219 | if the plan satisfies every condition, no key carries a message |
| PlanValidation.NoMessageIffRulesHold | src/components/StudentPlan/StudentPlanModal.comp.jsx:177-222 | no message under any key exactly when the plan satisfies every condition |
| PlanValidation.MatchingMapEmptyIffRulesHold | src/components/StudentPlan/StudentPlanModal.comp.jsx:221-222 | a map that carries exactly the table's messages is empty exactly when the plan satisfies every condition |
| PlanValidation.HeaderAgrees | src/components/StudentPlan/StudentPlanModal.comp.jsx:177-182 | after the four plan-level checks, the map carries exactly the plan-level messages and nothing else |
| PlanValidation.EntryStepAgrees | src/components/StudentPlan/StudentPlanModal.comp.jsx:192-213 | one turn of the entry loop extends the agreement with the table by entry i's amount and date messages |
| PlanValidation.FinalMatches | src/components/StudentPlan/StudentPlanModal.comp.jsx:184-219 | setting the installment-list message after the loop completes the table |
| PlanValidation.RoundedSumStep | src/components/StudentPlan/StudentPlanModal.comp.jsx:199 | the running sum after entry i is the previous sum plus entry i's amount, each rounded to cents and the result rounded again |
| PlanValidation.SeenStep | src/components/StudentPlan/StudentPlanModal.comp.jsx:205-208 | the dates seen before entry i + 1 are those seen before entry i plus entry i's own date |
| PlanValidation.CheckEntries | src/components/StudentPlan/StudentPlanModal.comp.jsx:188-213 | the loop sets every entry's amount and date message as the table says (past overrides duplicate, the first occurrence is never a duplicate) and returns the validator's rounded sum |
| PlanValidation.CheckInstallments | src/components/StudentPlan/StudentPlanModal.comp.jsx:184-219 | a one-time plan draws no installment message; fewer than two entries draw only the list message; otherwise the entry messages plus the sum check |
| PlanValidation.Validate | src/components/StudentPlan/StudentPlanModal.comp.jsx:172-223 | every key carries exactly the table's message, and the map is empty exactly when the plan satisfies every condition |
| PlanValidation.RoundedSumOfCopies | src/components/StudentPlan/StudentPlanModal.comp.jsx:199 | the validator's sum of k copies of an amount that rounds to m cents is k·m cents |
| PlanValidation.AsWrittenSplitIsCopies | src/components/StudentPlan/StudentPlanModal.comp.jsx:95-97 | with the exact share, the last part total − (n−1)·total/n equals total/n, so all n parts are equal |
| PlanValidation.GeneratedAsWrittenAmounts | src/components/StudentPlan/StudentPlanModal.comp.jsx:85-103 | as written, a generated schedule is count copies of total / count |
| PlanValidation.SixthsMissTotal | src/components/StudentPlan/StudentPlanModal.comp.jsx:199-215 | six parts of 100/6 sum to 100.02 the validator's way, which is outside the one-cent tolerance |
| PlanValidation.GeneratedPlanRejectedAsWritten | src/components/StudentPlan/StudentPlanModal.comp.jsx:85-103 | as written, a valid 100.00 plan with 6 generated installments draws the total-mismatch message (100.02) |
| PlanValidation.DeletedPlanRejectedAsWritten | src/components/StudentPlan/StudentPlanModal.comp.jsx:157-166 | as written, deleting any entry from a 7-entry 100.00 plan draws the same total-mismatch message |
| PlanValidation.SplitPrefixSum | src/components/StudentPlan/StudentPlanModal.comp.jsx:199 | with a whole-cent share, the validator sums all but the last part exactly |
| PlanValidation.SplitWithinTolerance | src/components/StudentPlan/StudentPlanModal.comp.jsx:199-215 | an equal split with a whole-cent share always passes the sum check |
| PlanValidation.EqualSplitAmounts | src/components/StudentPlan/StudentPlanModal.comp.jsx:95-97 | a schedule whose parts but the last are the share and whose total is right is exactly that equal split |
| PlanValidation.EqualSplitPassesSumCheck | src/components/StudentPlan/StudentPlanModal.comp.jsx:215-217 | such a schedule never draws the installment-list message |
| PlanValidation.GeneratedPlanPassesSumCheck | src/components/StudentPlan/StudentPlanModal.comp.jsx:85-103 | (corrected) a corrected generated schedule of two or more entries never draws the installment-list message |
| PlanValidation.DeletedPlanPassesSumCheck | src/components/StudentPlan/StudentPlanModal.comp.jsx:157-166 | (corrected) a schedule re-split by the corrected deletion never draws it either |
| PlanValidation.RulesFromParts | src/components/StudentPlan/StudentPlanModal.comp.jsx:177-219 | a plan with valid header inputs, at least two entries, positive amounts, valid dates and no list message passes every rule |
| PlanValidation.EqualSplitPositive | src/components/StudentPlan/StudentPlanModal.comp.jsx:193-197 | (corrected) a whole-cent split of at least a cent per entry passes the positive-amount rule for every entry |
| PlanValidation.GeneratedDatesValid | src/components/StudentPlan/StudentPlanModal.comp.jsx:201-211 | a generated schedule's dates are all present, none before today, and no two alike |
| PlanValidation.GeneratedPlanPassesValidation | src/components/StudentPlan/StudentPlanModal.comp.jsx:85-103 | (corrected) a plan with valid header inputs and at least a cent per installment, given a corrected generated schedule of two or more entries, passes every rule |
| PlanValidation.SurvivorDatesValid | src/components/StudentPlan/StudentPlanModal.comp.jsx:157-166 | deleting an entry keeps the other dates present, not past and distinct |
| PlanValidation.DeletedPlanPassesValidation | src/components/StudentPlan/StudentPlanModal.comp.jsx:149-169 | (corrected) a plan with valid header inputs and valid dates, with at least a cent per remaining installment, passes every rule after the corrected deletion |
| PlanForm.HandleChange | src/components/StudentPlan/StudentPlanModal.comp.jsx:106-111 | in View mode nothing changes; otherwise the named input takes the value and every other input and the installments are kept |
| PlanForm.Regenerate | src/components/StudentPlan/StudentPlanModal.comp.jsx:71-82 | for a positive installment plan, the schedule is regenerated with the current length (2 if empty), all but the last entry taking exactly total / count, adding up to the total, with increasing dates; a one-time plan loses its installments; otherwise nothing changes; only the installments change |
| PlanForm.RegenerateCorrected | src/components/StudentPlan/StudentPlanModal.comp.jsx:71-82 | (corrected) the same effect with the whole-cent split: all but the last entry are whole cents |
| PlanForm.RegenerateKeepsInputs | src/components/StudentPlan/StudentPlanModal.comp.jsx:71-82 | the effect never changes a plan-level input |
| PlanForm.ChangeField | src/components/StudentPlan/StudentPlanModal.comp.jsx:71-111 | a field edit followed by the effect: other inputs are kept, and the installments change only on a mode or total edit |
| PlanForm.EditedModeOrTotal | src/components/StudentPlan/StudentPlanModal.comp.jsx:82-110 | only an edit of the total or the payment mode can trigger the effect |
| PlanForm.ShortListMessage | src/components/StudentPlan/StudentPlanModal.comp.jsx:184-186 | a one-time plan draws no installment-list message, and any other plan with fewer than two entries draws the two-installment message |
| PlanForm.RegeneratedPlanRejectedAsWritten | src/components/StudentPlan/StudentPlanModal.comp.jsx:71-82 | as written, regenerating a 100.00 installment plan of six entries draws the total-mismatch message (100.02) |
| PlanForm.RegeneratedPlanPassesValidation | src/components/StudentPlan/StudentPlanModal.comp.jsx:71-82 | (corrected) a valid plan regenerated with at least a cent per entry passes every rule, a one-time plan passes exactly when its header does, and a one-entry list stays refused |
| PlanForm.HandleCountChange | src/components/StudentPlan/StudentPlanModal.comp.jsx:141-146 | in View mode nothing changes; otherwise a schedule of the chosen count with increasing dates, all but the last entry exactly total / count, that adds up to the total |
| PlanForm.HandleCountChangeCorrected | src/components/StudentPlan/StudentPlanModal.comp.jsx:141-146 | (corrected) the same with all but the last entry whole cents |
| PlanForm.CountChangeRejectedAsWritten | src/components/StudentPlan/StudentPlanModal.comp.jsx:141-146 | as written, choosing six installments for a 100.00 plan draws the total-mismatch message |
| PlanForm.CountChangePassesValidation | src/components/StudentPlan/StudentPlanModal.comp.jsx:141-146 | (corrected) a valid plan given a count of two or more with at least a cent per entry passes every rule |
| PlanForm.HandleInstallmentChange | src/components/StudentPlan/StudentPlanModal.comp.jsx:114-138 | in View mode nothing changes; an amount edit restores the total unless the last entry is edited; a date edit changes that date only |
| PlanForm.DateEditKeepsAmountChecks | src/components/StudentPlan/StudentPlanModal.comp.jsx:133-135 | a due-date edit leaves the sum check's verdict and every amount message as they were |
| PlanForm.HandleDelete | src/components/StudentPlan/StudentPlanModal.comp.jsx:149-169 | in View mode, or with two or fewer entries, nothing changes; otherwise one entry fewer (never below two), all but the last exactly total / length, and the total is kept |
| PlanForm.HandleDeleteCorrected | src/components/StudentPlan/StudentPlanModal.comp.jsx:149-169 | (corrected) the same with all but the last entry whole cents |
| PlanForm.DeleteRejectedAsWritten | src/components/StudentPlan/StudentPlanModal.comp.jsx:149-169 | as written, deleting any entry of a seven-entry 100.00 installment plan draws the total-mismatch message |
| PlanForm.DeletePassesValidation | src/components/StudentPlan/StudentPlanModal.comp.jsx:149-169 | (corrected) deleting from a valid plan with valid dates and at least a cent per remaining entry leaves a plan that passes every rule |
| PlanForm.SentPaymentType | src/components/StudentPlan/StudentPlanModal.comp.jsx:249-251 | "other" is replaced by the custom payment type; any other type is sent as is |
| PlanForm.Submit | src/components/StudentPlan/StudentPlanModal.comp.jsx:226-252 | View mode closes without validating; an invalid plan is refused with the full message map; a valid one is sent with PUT and the plan id in Edit mode or POST otherwise, the custom type replaces "other", and the modal closes exactly when the server accepts |
| FormBuilder.AddField | src/components/FormTemplates/CreateFormModal.jsx:27-42 | one field is appended with id field_{n+1}, empty name and label, type "text", not required and no options; earlier fields and the header are kept |
| FormBuilder.RemoveField | src/components/FormTemplates/CreateFormModal.jsx:79-85 | exactly the field at the index goes and the rest keep their order; an out-of-range index changes nothing |
| FormBuilder.RemoveUndoesAdd | src/components/FormTemplates/CreateFormModal.jsx:27-85 | removing the field just added gives back the template |
| FormBuilder.RemoveThenAddDuplicatesId | src/components/FormTemplates/CreateFormModal.jsx:29-80 | since ids come from the current length, a removal followed by an addition can give two fields the same id |
| FormBuilder.UpdateField | src/components/FormTemplates/CreateFormModal.jsx:87-103 | only the given key of the given field changes; setting the type to anything but dropdown or radio also clears that field's options |
| FormBuilder.UpdateFieldIdempotent | src/components/FormTemplates/CreateFormModal.jsx:87-103 | applying the same update twice is the same as once |
| FormBuilder.WithChoices | src/components/FormTemplates/CreateFormModal.jsx:105-139 | only the given field's options change |
| FormBuilder.AddOption | src/components/FormTemplates/CreateFormModal.jsx:105-115 | one empty option is appended to that field only |
| FormBuilder.RemoveOption | src/components/FormTemplates/CreateFormModal.jsx:117-126 | exactly the given option of that field goes; an out-of-range option index changes nothing |
| FormBuilder.RemoveOptionUndoesAdd | src/components/FormTemplates/CreateFormModal.jsx:105-126 | removing the option just added gives back the template |
| FormBuilder.UpdateOption | src/components/FormTemplates/CreateFormModal.jsx:128-140 | exactly one key of one option changes |
| FormBuilder.UpdateOptionLastWins | src/components/FormTemplates/CreateFormModal.jsx:128-140 | two updates of the same key of the same option leave only the second |
| FormBuilder.CheckTemplate | src/components/FormTemplates/CreateFormModal.jsx:142-162 | checks run in order: blank title, then no fields, then the lowest-index field with a blank name or label; none reported exactly when all pass |
| FormBuilder.SubmitDisabledIffHeaderCheckFails | src/components/FormTemplates/CreateFormModal.jsx:659-664 | outside View mode and loading, the button is disabled exactly when one of the first two checks fails |
| FormBuilder.Submit | src/components/FormTemplates/CreateFormModal.jsx:142-198 | a template failing any check is refused and nothing is sent; otherwise it is sent with PUT in Edit mode or POST otherwise, and the modal closes exactly when the server accepts |
| Enrollments.CeilDiv | src/components/StudentPlan/StudentPlanEnrollmentsModal.comp.jsx:336 | the result is the least r with r·b ≥ a |
| Enrollments.Window | src/components/StudentPlan/StudentPlanEnrollmentsModal.comp.jsx:216-227 | min(5, pages) consecutive ascending page numbers, all within 1..pages |
| Enrollments.WindowContainsPage | src/components/StudentPlan/StudentPlanEnrollmentsModal.comp.jsx:216-227 | the window holds the current page whenever it exists |
| Enrollments.RangeEnd | src/components/StudentPlan/StudentPlanEnrollmentsModal.comp.jsx:203 | the label's end is at most the total |
| Enrollments.RangeLabelWithinRows | src/components/StudentPlan/StudentPlanEnrollmentsModal.comp.jsx:199-205 | on an existing page with pages = ⌈total/limit⌉, the label names a non-empty range of existing rows |
| Enrollments.NavigationStaysInRange | src/components/StudentPlan/StudentPlanEnrollmentsModal.comp.jsx:208-249 | from an existing page, an enabled Previous or Next button leads to an existing page |
| Enrollments.Fallback | src/components/StudentPlan/StudentPlanEnrollmentsModal.comp.jsx:331-338 | the fallback has total n, page 1, limit 10 and ⌈n/10⌉ pages |
| Enrollments.FallbackShownIffMoreThanTen | src/components/StudentPlan/StudentPlanEnrollmentsModal.comp.jsx:331-338 | with the fallback, the bar is shown exactly when more than ten rows came back, and its label covers rows 1 to min(10, n) |
| Enrollments.FilterChange | src/components/StudentPlan/StudentPlanEnrollmentsModal.comp.jsx:382-384 | the key takes the value, the page resets to 1, and the other filter and the page size are kept |
| Enrollments.PageChange | src/components/StudentPlan/StudentPlanEnrollmentsModal.comp.jsx:386-388 | only the page changes |
| Enrollments.StatusMap | src/components/StudentPlan/StudentPlanEnrollmentsModal.comp.jsx:327-329 | the map has exactly the fetched ids, and each maps to the status of its last row |
| Enrollments.IdsSplitOffLast | src/components/StudentPlan/StudentPlanEnrollmentsModal.comp.jsx:328 | the ids of the rows are the ids of all but the last row plus the last row's id |
| Enrollments.LastWithIdOfPrefix | src/components/StudentPlan/StudentPlanEnrollmentsModal.comp.jsx:328 | a row that is last with its id stays so in the rows without the final one |
| Enrollments.UpdateStatus | src/components/StudentPlan/StudentPlanEnrollmentsModal.comp.jsx:347-376 | the updated id maps to the new status whatever the server answers; no other entry changes |
| Enrollments.RowEnabledAfterFetchAndUpdate | src/components/StudentPlan/StudentPlanEnrollmentsModal.comp.jsx:125-127 | a row's selector is enabled exactly when its entry is "enrolled", both after a fetch and after an update |
| PlanList.InitialQuery | src/components/StudentPlan/StudentPlans.comp.jsx:24-36 | page 1, limit 10, sorted by createdAt descending, every filter "" |
| PlanList.Params | src/components/StudentPlan/StudentPlans.comp.jsx:43-47 | exactly the query entries whose value is neither "" nor null, with their values |
| PlanList.InitialParams | src/components/StudentPlan/StudentPlans.comp.jsx:24-47 | a fresh list asks for page 1 of 10 sorted by createdAt descending, and nothing else |
| PlanList.FilterChange | src/components/StudentPlan/StudentPlans.comp.jsx:138-140 | the field takes the value, the page resets to 1, and every other key is kept |
| PlanList.SearchChange | src/components/StudentPlan/StudentPlans.comp.jsx:134-136 | the search text changes, the page resets to 1, and every other key is kept |
| PlanList.SearchSentIffNonEmpty | src/components/StudentPlan/StudentPlans.comp.jsx:43-47 | after a search change, the request carries the search exactly when it is non-empty, and always asks for page 1 |
| PlanList.TotalPagesFrom | src/components/StudentPlan/StudentPlans.comp.jsx:64 | a missing or zero page count reads as 1; any other is kept; the result is never 0 |
| PlanList.PageChange | src/components/StudentPlan/StudentPlans.comp.jsx:142-146 | the page moves only to a page within 1..totalPages; otherwise the query is unchanged; no other key changes |
| PlanList.PageChangeStaysInRange | src/components/StudentPlan/StudentPlans.comp.jsx:142-146 | from an existing page, no page change leaves the existing pages |
| PlanList.PrevNextMoveByOne | src/components/StudentPlan/StudentPlans.comp.jsx:376-390 | enabled Previous and Next buttons move exactly one page |
| PlanList.MissingCountMeansOnePage | src/components/StudentPlan/StudentPlans.comp.jsx:142-146 | without a page count, a list on page 1 has both buttons disabled and no page change moves it |
| PlanList.DeleteRequest | src/components/StudentPlan/StudentPlans.comp.jsx:97-107 | a deletion is requested exactly when the plan has a non-empty id and the user confirms, and it targets that id |
| PlanList.DeleteTargetsOnePlan | src/components/StudentPlan/StudentPlans.comp.jsx:97-107 | among plans with distinct ids, a confirmed deletion of one plan targets that plan and no other |
| Text.Trim | src/pages/AddCourse.jsx:54-57 | the result is a slice of the input; what is cut from either end is all whitespace, the result neither starts nor ends with whitespace, and it is empty exactly when the input is all whitespace |
| Text.TrimIdempotent | src/pages/AddCourse.jsx:54-57 | trimming twice is trimming once |
| Text.TrimIgnoresLeadingSpace | src/pages/AddCourse.jsx:54-57 | a leading space does not change the trimmed text |
| CourseForm.Stored | src/pages/AddCourse.jsx:34-45 | a checkbox stores its checked state; a non-empty number input stores its number, or 0 if it is not a number; anything else stores the raw text |
| CourseForm.HandleChange | src/pages/AddCourse.jsx:34-51 | only the named input changes; tags and materials are kept |
| CourseForm.LastChangeWins | src/pages/Users.jsx:31-49 | two writes to the same input leave only the second |
| CourseForm.AddTag | src/pages/AddCourse.jsx:53-61 | the trimmed input is appended and the input cleared exactly when it is not blank and not already a tag as typed; otherwise nothing changes |
| CourseForm.PaddedTagIsAddedTwice | src/pages/AddCourse.jsx:54-57 | an existing tag typed again behind a space is added a second time |
| CourseForm.RemoveTag | src/pages/AddCourse.jsx:63-68 | every copy of the tag goes; every other tag is kept as often as it occurred, in order |
| CourseForm.RemoveUndoesAddTag | src/pages/Users.jsx:51-66 | removing a newly added tag gives back the tags |
| CourseForm.RemoveAllAppended | src/pages/AddCourse.jsx:63-67 | removing a value appended to a list that lacks it gives back the list |
| CourseForm.AddMaterial | src/pages/AddCourse.jsx:70-87 | the material is appended and the sub-form reset exactly when title, file URL and file type are all non-empty; otherwise nothing changes |
| CourseForm.RemoveMaterial | src/pages/Users.jsx:82-87 | exactly the material at the index goes; an out-of-range index changes nothing |
| CourseForm.RemoveUndoesAddMaterial | src/pages/AddCourse.jsx:70-94 | removing the material just added gives back the list |
| CourseForm.UploadFile | src/pages/AddCourse.jsx:122-168 | a non-image file over 512000 bytes, or a failed request, leaves the sub-form alone; otherwise its file URL becomes the backend address followed by the stored path, title and type kept |
| CourseForm.RefusedUploadKeepsMaterials | src/pages/AddCourse.jsx:70-138 | a refused upload leaves what adding the material does unchanged |
| CourseForm.UploadThenAdd | src/pages/AddCourse.jsx:70-168 | after an accepted upload, adding a titled material appends it with the uploaded file's address and resets the sub-form |
| CourseForm.AfterSubmit | src/pages/Users.jsx:105-124 | after an accepted submission the record is the initial one (no tags, no materials, default inputs); after a refusal nothing changes |
| CourseForm.SubmitResetForgetsEdits | src/pages/Users.jsx:89-124 | after an accepted submission the record is the same whatever was entered; a refused one keeps the record, so submitting again sends it unchanged |
| CourseForm.InitialRecordsDifferByPreview | src/pages/Users.jsx:5-22 | the two pages' initial records differ only by the preview video URL that Users.jsx adds |
| Seqs.RemoveAt | src/components/FormTemplates/CreateFormModal.jsx:80 | exactly the element at the index goes and the rest keep their order; an out-of-range index changes nothing |
| Seqs.RemoveAll | src/pages/AddCourse.jsx:66 | no copy of the value is left; every other element is kept as often as it occurred |
| Seqs.RemoveAllKeepsOrder | src/pages/AddCourse.jsx:66 | what remains is a subsequence of the original |
| Submissions.ChangeStatus | src/components/FormTemplates/SubmissionFormModal.jsx:53-83 | when the server accepts, only the submissions with the given id take the new status; a refusal changes nothing |
| Submissions.ChangeStatusIdempotent | src/components/FormTemplates/SubmissionFormModal.jsx:74-78 | applying the same accepted change again changes nothing more |
| Submissions.StatusClass | src/components/FormTemplates/SubmissionFormModal.jsx:86-95 | green exactly for "Approved", red exactly for "Rejected", yellow for everything else |
| Submissions.ToggleExpanded | src/components/FormTemplates/SubmissionFormModal.jsx:98-104 | the submission is expanded exactly when it was not expanded before; otherwise nothing is expanded |
| Submissions.ToggleTwice | src/components/FormTemplates/SubmissionFormModal.jsx:98-104 | toggling the same submission twice from collapsed (or from itself) returns to the start; from another submission it ends collapsed |
| Submissions.Count | src/components/FormTemplates/SubmissionFormModal.jsx:208-222 | a status count never exceeds the number of submissions |
| Submissions.CountsWithinTotal | src/components/FormTemplates/SubmissionFormModal.jsx:200-222 | the Pending, Approved and Rejected counts add up to at most the total, and exactly to it when every status is one of the three |
| Submissions.CountBadge | src/components/FormTemplates/SubmissionFormModal.jsx:86-95 | a badge count never exceeds the number of submissions |
| Submissions.BadgesMatchCounts | src/components/FormTemplates/SubmissionFormModal.jsx:86-222 | green badges are as many as approved submissions, red as rejected, and yellow are all the others, at least as many as the pending ones |
| Submissions.FieldLabel | src/components/FormTemplates/SubmissionFormModal.jsx:135 | same length and no underscore; every underscore becomes a space and every other character is kept |
| Submissions.FieldLabelIdempotent | src/components/FormTemplates/SubmissionFormModal.jsx:357 | formatting a label again changes nothing |

## Left out

- Network and browser I/O are not modelled: `fetch`, `alert`, `window.confirm`, console logging, navigation and `setRefresh`. A server's or user's answer is a `serverOk` or `confirmed` parameter, and the current date is the `today` parameter.
- React timing is not modelled: effect dependencies, stale closures, in-flight races, `touched`/`loading`/`error` display state and the plan detail fetch. The effect in `PlanForm.Regenerate` is applied explicitly by `PlanForm.ChangeField`.
- Floating point is not modelled. Amounts are exact `real`s, so the `Number.EPSILON` nudge in `round2` and float error in total / count are left out. `toFixed` formatting of the mismatch message is left out; the message carries the sum as a number.
- Money.Round2: models `Math.round(x * 100) / 100` without the `Number.EPSILON` nudge.
- `parseFloat`, `Number` and `parseInt` are abstract: each parsed value arrives as an `Option<real>` or as a count.
- PlanForm.HandleCountChange: takes a whole count, since the select offers only 2 to 12; `parseInt` giving `NaN` is not modelled.
- Dates are abstract `Date(month, day)` values ordered like ISO strings. `setMonth` day overflow, UTC shifts from `toISOString` and string comparison are not modelled.
- PlanValidation.Expected: the total check's `!Number.isFinite` branch is not modelled. The total comes from a number input, whose value is numeric or "" (which reads as 0), so only `total <= 0` can fire.
- The `validations: {}` member of a new template field is not modelled, since nothing reads it.
- PlanForm.HandleInstallmentChange: requires an existing index. The source writes through `updatedInstallments[index]`, which throws on a missing entry.
- FormBuilder.UpdateField: requires an existing index. An out-of-range index in the source would create a sparse array slot, which has no `seq` counterpart.
- FormBuilder.UpdateOption: requires an existing option, for the same reason.
- FormBuilder.AddOption and FormBuilder.RemoveOption: require an existing field. The source throws on a missing one.
- JavaScript objects are mutated in place: `handleInstallmentChange` and the option handlers write through a shallow copy of the array into the shared entry objects. The model copies instead. This is observable only through aliasing across renders.
- Enrollments.AfterFetch: has no contract of its own. Its fallback is `Enrollments.Fallback`.
- `data.data.pagination` is read from the rows array, which has no such member in any response this code receives. The model lets the server's pagination be present or absent and proves the fallback case.
- Enrollments.UpdateStatus: the refetch that follows an accepted update rebuilds the map through `Enrollments.StatusMap`. The model does not chain the two.
- PlanList.Params: `URLSearchParams` stringification and parameter order are not modelled; the result is a map.
- PlanList.TotalPagesFrom: the other falsy page counts (`NaN`, `null`, `""`) are folded into the absent case.
- Image compression and PDF export (`downloadPDF`, jsPDF) are foreign library calls and are not modelled. The upload request's answer is the `response` parameter of `CourseForm.UploadFile`.
- CourseForm.UploadFile: the success path of `handleFileUpload` also logs an undeclared `file_url` (src/pages/AddCourse.jsx:162). That throws after the state update and ends in an alert. The alert is not modelled; the stored URL is.
- The two course pages differ outside the shared handlers. AddCourse.jsx alerts on an incomplete material, while Users.jsx stays silent. AddCourse.jsx navigates away after a submission, while Users.jsx resets its record. The model keeps only the state effects, which are the same in both.
- CourseForm.AfterSubmit: Users.jsx does not clear `tagInput` or `currentMaterial` after a submission, and neither does the model.
- PlanValidation.GeneratedPlanPassesValidation, PlanValidation.DeletedPlanPassesValidation and the `…Corrected` form handlers' validation lemmas assume a total of at least one cent per installment. Below that, some part of any whole-cent split is zero, and the amount rule refuses the plan whatever the split.
- `StudentPlan.jsx`, `CourseListing.jsx`, the thin status-update pages, and the routing and rendering-only files are not part of this model.

## Findings

| source | as written | input that shows it | evidently intended | confidence | as-written member | corrected member |
|---|---|---|---|---|---|---|
| src/components/StudentPlan/StudentPlanModal.comp.jsx:86-97 | a generated schedule gives every entry but the last the unrounded share total / count | total 100.00 with 6 installments: every part is 16.666…, the validator rounds each to 16.67 and sums 100.02, so submission is refused with "Installments total (100.02) doesn't match plan total" | the schedule the form generates for a valid plan of at least a cent per installment passes its own validator | not executed | PlanValidation.GeneratedPlanRejectedAsWritten | PlanValidation.GeneratedPlanPassesValidation |
| src/components/StudentPlan/StudentPlanModal.comp.jsx:160-165 | the deletion rebalance gives every survivor but the last the unrounded share total / length | a 100.00 plan with 7 installments, any one deleted: six parts of 16.666… sum to 100.02 the validator's way, and the plan is refused | the rebalanced schedule of a valid plan with at least a cent per installment passes the validator | not executed | PlanValidation.DeletedPlanRejectedAsWritten | PlanValidation.DeletedPlanPassesValidation |

The corrected share is `Money.ShareCorrected`: total / count rounded down to whole cents. Every part but the last is then exact to the validator. The last part carries the remainder, so it is never smaller than total / count. `Installments.GenerateCorrected`, `Installments.RebalanceCorrected` and `Installments.DeleteCorrected` use it, and the form handlers `PlanForm.RegenerateCorrected`, `PlanForm.HandleCountChangeCorrected` and `PlanForm.HandleDeleteCorrected` apply them. `Installments.Generate`, `Installments.Delete` and the form handlers without the suffix keep the source's plain division. `PlanForm.RegeneratedPlanRejectedAsWritten`, `PlanForm.CountChangeRejectedAsWritten` and `PlanForm.DeleteRejectedAsWritten` show the refusal at the level of the form's handlers.
