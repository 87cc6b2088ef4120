/** The submission review of one form template
    (src/components/FormTemplates/SubmissionFormModal.jsx): status changes
    by id, the status badge colour, the single expanded submission, the
    status counts of the stats bar, and the field labels. */
module Submissions {
  import opened Wrappers

  datatype Submission = Submission(id: string, status: string)

  /** `handleStatusChange(id, status)`: when the server accepts, every
      submission with that id takes the new status and the others are left
      alone; when it refuses, nothing changes. */
  function ChangeStatus(subs: seq<Submission>, id: string, newStatus: string, serverOk: bool)
    : (r: seq<Submission>)
    ensures |r| == |subs|
    ensures forall i :: 0 <= i < |subs| ==> r[i].id == subs[i].id
    ensures forall i :: 0 <= i < |subs| && subs[i].id != id ==> r[i] == subs[i]
    ensures serverOk ==> forall i :: 0 <= i < |subs| && subs[i].id == id ==> r[i].status == newStatus
    ensures !serverOk ==> r == subs
  {
    if !serverOk then subs
    else seq(|subs|, i requires 0 <= i < |subs| =>
               if subs[i].id == id then subs[i].(status := newStatus) else subs[i])
  }

  /** Applying the same accepted change again changes nothing more. */
  lemma ChangeStatusIdempotent(subs: seq<Submission>, id: string, newStatus: string)
    ensures var once := ChangeStatus(subs, id, newStatus, true);
            ChangeStatus(once, id, newStatus, true) == once
  {
  }

  datatype Badge = Green | Red | Yellow

  /** `getStatusClass(status)`: green for "Approved", red for "Rejected",
      the pending yellow for anything else. */
  function StatusClass(status: string): (b: Badge)
    ensures b == Green <==> status == "Approved"
    ensures b == Red <==> status == "Rejected"
    ensures b == Yellow <==> status != "Approved" && status != "Rejected"
  {
    if status == "Approved" then Green
    else if status == "Rejected" then Red
    else Yellow
  }

  /** `toggleExpanded(id)`: collapses `id` when it is the expanded one and
      expands it otherwise, so at most one submission is ever expanded. */
  function ToggleExpanded(expanded: Option<string>, id: string): (r: Option<string>)
    ensures r == Some(id) <==> expanded != Some(id)
    ensures r != Some(id) ==> r == None
  {
    if expanded == Some(id) then None else Some(id)
  }

  /** Toggling the same submission twice, starting collapsed or from that
      submission, gets back to where it started; starting from another
      submission, it ends collapsed. */
  lemma ToggleTwice(expanded: Option<string>, id: string)
    ensures expanded == None || expanded == Some(id) ==>
              ToggleExpanded(ToggleExpanded(expanded, id), id) == expanded
    ensures expanded.Some? && expanded != Some(id) ==>
              ToggleExpanded(ToggleExpanded(expanded, id), id) == None
  {
  }

  /** `submissions.filter(s => s.status === status).length`. */
  function Count(subs: seq<Submission>, status: string): (n: nat)
    ensures n <= |subs|
  {
    if subs == [] then 0
    else Count(subs[..|subs| - 1], status) + (if subs[|subs| - 1].status == status then 1 else 0)
  }

  /** The number of submissions whose badge is `b`. */
  function CountBadge(subs: seq<Submission>, b: Badge): (n: nat)
    ensures n <= |subs|
  {
    if subs == [] then 0
    else CountBadge(subs[..|subs| - 1], b) + (if StatusClass(subs[|subs| - 1].status) == b then 1 else 0)
  }

  /** The badges agree with the stats bar: as many green badges as approved
      submissions, as many red as rejected, and the yellow ones are every
      other submission, pending ones included. */
  lemma {:induction false} BadgesMatchCounts(subs: seq<Submission>)
    ensures CountBadge(subs, Green) == Count(subs, "Approved")
    ensures CountBadge(subs, Red) == Count(subs, "Rejected")
    ensures CountBadge(subs, Yellow) == |subs| - Count(subs, "Approved") - Count(subs, "Rejected")
    ensures CountBadge(subs, Yellow) >= Count(subs, "Pending")
    decreases |subs|
  {
    if subs != [] {
      BadgesMatchCounts(subs[..|subs| - 1]);
    }
  }

  /** A status the stats bar counts. */
  predicate Counted(status: string) {
    status == "Pending" || status == "Approved" || status == "Rejected"
  }

  /** The three counts never exceed the total, and add up to it when every
      submission is pending, approved or rejected. */
  lemma {:induction false} CountsWithinTotal(subs: seq<Submission>)
    ensures Count(subs, "Pending") + Count(subs, "Approved") + Count(subs, "Rejected") <= |subs|
    ensures (forall i :: 0 <= i < |subs| ==> Counted(subs[i].status)) ==>
              Count(subs, "Pending") + Count(subs, "Approved") + Count(subs, "Rejected") == |subs|
    decreases |subs|
  {
    if subs != [] {
      var init := subs[..|subs| - 1];
      CountsWithinTotal(init);
      if forall i :: 0 <= i < |subs| ==> Counted(subs[i].status) {
        assert forall i :: 0 <= i < |init| ==> init[i] == subs[i];
        assert Counted(subs[|subs| - 1].status);
      }
    }
  }

  /** `key.replace(/_/g, ' ')`: every underscore becomes a space and nothing
      else moves. */
  function FieldLabel(key: string): (r: string)
    ensures |r| == |key| && '_' !in r
    ensures forall i :: 0 <= i < |key| && key[i] != '_' ==> r[i] == key[i]
    ensures forall i :: 0 <= i < |key| && key[i] == '_' ==> r[i] == ' '
  {
    if key == [] then []
    else [if key[0] == '_' then ' ' else key[0]] + FieldLabel(key[1..])
  }

  /** Labels are already labels. */
  lemma {:induction false} FieldLabelIdempotent(key: string)
    ensures FieldLabel(FieldLabel(key)) == FieldLabel(key)
    decreases |key|
  {
    var r := FieldLabel(key);
    var r2 := FieldLabel(r);
    assert forall i :: 0 <= i < |r| ==> r2[i] == r[i];
  }
}
