/**
 * The request management page: a manager moves an item request to a new status, optionally
 * changing its priority, and the request list is coloured and ordered by priority.
 */
module Requests {
  import opened Common
  import opened Schema

  // ---------------------------------------------------------------------------------------
  // update_request_status: validation

  /** The statuses that record who approved the request, and when. */
  predicate IsDecision(status: string)
  {
    status == "approved" || status == "partially_approved" || status == "rejected"
  }

  /**
   * The checks of update_request_status, in the handler's order, ending with the status that
   * is stored: an 'approved' whose quantity is not the requested one is stored as
   * 'partially_approved'. `current` is the stored request, None when there is none.
   */
  function ValidateStatusUpdate(requestId: int, newStatus: string, newPriority: string,
                                quantityApproved: Option<int>, current: Option<ItemRequest>)
    : (r: Result<string>)
    ensures requestId == 0 ==> r == Err("Invalid request ID.")
    ensures requestId != 0 && newStatus !in Statuses ==> r == Err("Invalid status.")
    ensures requestId != 0 && newStatus in Statuses && Truthy(newPriority) && newPriority !in Priorities ==>
              r == Err("Invalid priority.")
    ensures r.Ok? ==> requestId != 0 && newStatus in Statuses && current.Some?
    ensures r.Ok? ==> Truthy(newPriority) ==> newPriority in Priorities
    ensures r.Ok? ==> r.value in Statuses
    ensures r.Ok? && r.value == "approved" ==>
              newStatus == "approved" && quantityApproved == Some(current.value.quantityRequested)
    ensures r.Ok? && r.value == "partially_approved" ==>
              && newStatus in {"approved", "partially_approved"}
              && quantityApproved.Some? && 0 <= quantityApproved.value < current.value.quantityRequested
    ensures r.Ok? && newStatus !in {"approved", "partially_approved"} ==> r.value == newStatus
  {
    if requestId == 0 then Err("Invalid request ID.")
    else if newStatus !in Statuses then Err("Invalid status.")
    else if Truthy(newPriority) && newPriority !in Priorities then Err("Invalid priority.")
    else if current.None? then Err("Request not found.")
    else if newStatus == "approved" || newStatus == "partially_approved" then
      var requested := current.value.quantityRequested;
      if quantityApproved.None? || quantityApproved.value < 0 then
        Err("Approved quantity is required and must be non-negative.")
      else if quantityApproved.value > requested then
        Err("Approved quantity cannot exceed requested quantity.")
      else if newStatus == "partially_approved" && quantityApproved.value >= requested then
        Err("For partial approval, approved quantity must be less than requested quantity.")
      else if newStatus == "approved" && quantityApproved.value != requested then Ok("partially_approved")
      else Ok(newStatus)
    else Ok(newStatus)
  }

  /** A request that does not exist is refused once the input itself is valid. */
  lemma MissingRequestRefused(requestId: int, newStatus: string, newPriority: string, q: Option<int>)
    requires requestId != 0 && newStatus in Statuses && (Truthy(newPriority) ==> newPriority in Priorities)
    ensures ValidateStatusUpdate(requestId, newStatus, newPriority, q, None) == Err("Request not found.")
  {
  }

  /**
   * The approval bounds, both ways: approving or partly approving is accepted exactly when the
   * quantity is present, not negative, not above the requested one, and for a partial approval
   * below it.
   */
  lemma ApprovalBounds(requestId: int, newStatus: string, newPriority: string, q: Option<int>, current: ItemRequest)
    requires requestId != 0 && (Truthy(newPriority) ==> newPriority in Priorities)
    requires newStatus == "approved" || newStatus == "partially_approved"
    ensures ValidateStatusUpdate(requestId, newStatus, newPriority, q, Some(current)).Ok? <==>
              && q.Some? && 0 <= q.value <= current.quantityRequested
              && (newStatus == "partially_approved" ==> q.value < current.quantityRequested)
  {
    assert newStatus in Statuses;
  }

  /** A full approval of less than requested is stored as a partial approval. */
  lemma ApprovalCorrected(requestId: int, q: int, current: ItemRequest)
    requires requestId != 0 && 0 <= q < current.quantityRequested
    ensures ValidateStatusUpdate(requestId, "approved", "", Some(q), Some(current)) == Ok("partially_approved")
  {
    assert "approved" in Statuses;
  }

  // ---------------------------------------------------------------------------------------
  // update_request_status: the row update

  /** One `column = value` pair of the UPDATE statement. */
  datatype RequestField =
    | SetStatus(status: string)
    | SetManagerNotes(notes: string)
    | SetApprovedBy(user: int)
    | SetApprovedDate(at: Timestamp)
    | SetQuantityApproved(quantity: int)
    | SetCompletedBy(user: int)
    | SetCompletedDate(at: Timestamp)
    | SetPriority(priority: string)

  /**
   * The assignments the handler assembles for the stored status: status and notes always; the
   * approver, the approval time and a given quantity for a decision; the completer and time for
   * 'completed'; the priority when one is given and differs from the stored one.
   */
  function UpdateFields(status: string, newPriority: string, quantityApproved: Option<int>, notes: string,
                        user: int, now: Timestamp, storedPriority: string)
    : (fields: seq<RequestField>)
    ensures |fields| >= 2 && fields[0] == SetStatus(status) && fields[1] == SetManagerNotes(notes)
    ensures SetApprovedBy(user) in fields <==> IsDecision(status)
    ensures SetApprovedDate(now) in fields <==> IsDecision(status)
    ensures (exists q :: SetQuantityApproved(q) in fields) <==> IsDecision(status) && quantityApproved.Some?
    ensures SetCompletedBy(user) in fields <==> status == "completed"
    ensures (exists p :: SetPriority(p) in fields) <==> Truthy(newPriority) && newPriority != storedPriority
  {
    [SetStatus(status), SetManagerNotes(notes)]
    + (if IsDecision(status) then
         [SetApprovedBy(user), SetApprovedDate(now)]
         + (if quantityApproved.Some? then [SetQuantityApproved(quantityApproved.value)] else [])
       else [])
    + (if status == "completed" then [SetCompletedBy(user), SetCompletedDate(now)] else [])
    + (if Truthy(newPriority) && newPriority != storedPriority then [SetPriority(newPriority)] else [])
  }

  /** One assignment of the UPDATE statement. */
  function ApplyField(r: ItemRequest, f: RequestField): ItemRequest
  {
    match f
    case SetStatus(s) => r.(status := s)
    case SetManagerNotes(n) => r.(managerNotes := Some(n))
    case SetApprovedBy(u) => r.(approvedBy := Some(u))
    case SetApprovedDate(t) => r.(approvedDate := Some(t))
    case SetQuantityApproved(q) => r.(quantityApproved := Some(q))
    case SetCompletedBy(u) => r.(completedBy := Some(u))
    case SetCompletedDate(t) => r.(completedDate := Some(t))
    case SetPriority(p) => r.(priority := p)
  }

  /** The UPDATE statement: each assignment in turn. */
  function ApplyFields(r: ItemRequest, fields: seq<RequestField>): (u: ItemRequest)
    ensures u.itemId == r.itemId && u.quantityRequested == r.quantityRequested
    ensures u.requestedAt == r.requestedAt && u.requestedBy == r.requestedBy
    ensures u.fromLocation == r.fromLocation && u.toLocation == r.toLocation
    decreases |fields|
  {
    if fields == [] then r else ApplyFields(ApplyField(r, fields[0]), fields[1..])
  }

  /** The stored request after a validated status change. */
  function StatusUpdated(current: ItemRequest, status: string, newPriority: string, quantityApproved: Option<int>,
                         notes: string, user: int, now: Timestamp)
    : ItemRequest
  {
    ApplyFields(current, UpdateFields(status, newPriority, quantityApproved, notes, user, now, current.priority))
  }

  lemma {:induction false} ApplyAppend(r: ItemRequest, a: seq<RequestField>, b: seq<RequestField>)
    ensures ApplyFields(r, a + b) == ApplyFields(ApplyFields(r, a), b)
    decreases |a|
  {
    if a == [] {
      assert a + b == b;
    } else {
      assert (a + b)[0] == a[0] && (a + b)[1..] == a[1..] + b;
      ApplyAppend(ApplyField(r, a[0]), a[1..], b);
    }
  }

  lemma ApplyPair(r: ItemRequest, f: RequestField, g: RequestField)
    ensures ApplyFields(r, [f, g]) == ApplyField(ApplyField(r, f), g)
  {
    assert [f, g][1..] == [g];
    assert ApplyFields(r, [f, g]) == ApplyFields(ApplyField(r, f), [g]);
    ApplyOne(ApplyField(r, f), g);
  }

  lemma ApplyOne(r: ItemRequest, f: RequestField)
    ensures ApplyFields(r, [f]) == ApplyField(r, f)
  {
    assert [f][1..] == [];
  }

  /**
   * The stamps follow the stored status: a decision sets the approver and time (and a given
   * quantity), 'completed' sets the completer and time, any other status leaves them as they
   * were; the notes are always written, and the priority changes only to a given one.
   */
  lemma StampsFollowStatus(current: ItemRequest, status: string, newPriority: string,
                           q: Option<int>, notes: string, user: int, now: Timestamp)
    ensures var u := StatusUpdated(current, status, newPriority, q, notes, user, now);
            && u.status == status && u.managerNotes == Some(notes)
            && (IsDecision(status) ==> u.approvedBy == Some(user) && u.approvedDate == Some(now))
            && (!IsDecision(status) ==> u.approvedBy == current.approvedBy && u.approvedDate == current.approvedDate)
            && u.quantityApproved == (if IsDecision(status) && q.Some? then q else current.quantityApproved)
            && (status == "completed" ==> u.completedBy == Some(user) && u.completedDate == Some(now))
            && (status != "completed" ==> u.completedBy == current.completedBy && u.completedDate == current.completedDate)
            && u.priority == (if Truthy(newPriority) then newPriority else current.priority)
  {
    var base := [SetStatus(status), SetManagerNotes(notes)];
    var qs := if q.Some? then [SetQuantityApproved(q.value)] else [];
    var decision := if IsDecision(status) then [SetApprovedBy(user), SetApprovedDate(now)] + qs else [];
    var done := if status == "completed" then [SetCompletedBy(user), SetCompletedDate(now)] else [];
    var prio := if Truthy(newPriority) && newPriority != current.priority then [SetPriority(newPriority)] else [];
    assert UpdateFields(status, newPriority, q, notes, user, now, current.priority) == ((base + decision) + done) + prio;
    ApplyAppend(current, (base + decision) + done, prio);
    ApplyAppend(current, base + decision, done);
    ApplyAppend(current, base, decision);
    ApplyPair(current, SetStatus(status), SetManagerNotes(notes));
    var r1 := ApplyFields(current, base);
    if IsDecision(status) {
      ApplyAppend(r1, [SetApprovedBy(user), SetApprovedDate(now)], qs);
      ApplyPair(r1, SetApprovedBy(user), SetApprovedDate(now));
      if q.Some? {
        ApplyOne(r1.(approvedBy := Some(user), approvedDate := Some(now)), SetQuantityApproved(q.value));
      }
    }
    var r2 := ApplyFields(r1, decision);
    if status == "completed" {
      ApplyPair(r2, SetCompletedBy(user), SetCompletedDate(now));
    }
    var r3 := ApplyFields(r2, done);
    if prio != [] {
      ApplyOne(r3, SetPriority(newPriority));
    }
  }

  /**
   * update_request_status: refused, with nothing written, when validation fails (all checks run
   * before the transaction starts); otherwise the request row is updated and one 'assignment'
   * history row records the old and the stored status, so both are written or neither is.
   */
  method UpdateRequestStatus(db: Database, requestId: int, newStatus: string, newPriority: string,
                             quantityApproved: Option<int>, notes: string, user: int, now: Timestamp)
    returns (r: Outcome)
    modifies db`requests, db`history
    ensures var v := ValidateStatusUpdate(requestId, newStatus, newPriority, quantityApproved,
                                          if requestId in old(db.requests) then Some(old(db.requests)[requestId]) else None);
            && (v.Err? ==> r == Failed(v.message) && db.requests == old(db.requests) && db.history == old(db.history))
            && (v.Ok? ==>
                  var current := old(db.requests)[requestId];
                  && r == Done
                  && db.requests == old(db.requests)[requestId := StatusUpdated(current, v.value, newPriority,
                                                                                quantityApproved, Trim(notes), user, now)]
                  && db.history == old(db.history) +
                       [HistoryEntry(current.itemId, user,
                                     RequestStatusUpdated(requestId, current.status, v.value, quantityApproved, Trim(notes)))])
  {
    var current := if requestId in db.requests then Some(db.requests[requestId]) else None;
    var v := ValidateStatusUpdate(requestId, newStatus, newPriority, quantityApproved, current);
    if v.Err? {
      return Failed(v.message);
    }
    var stored := current.value;
    var fields := UpdateFields(v.value, newPriority, quantityApproved, Trim(notes), user, now, stored.priority);
    db.requests := db.requests[requestId := ApplyFields(stored, fields)];
    db.history := db.history + [HistoryEntry(stored.itemId, user,
                                             RequestStatusUpdated(requestId, stored.status, v.value, quantityApproved, Trim(notes)))];
    r := Done;
  }

  // ---------------------------------------------------------------------------------------
  // The request list

  /** The badge colour of a status; any other value is gray. */
  function StatusColor(status: string): (c: string)
    ensures c in {"yellow", "green", "blue", "red", "purple", "gray"}
    ensures status !in Statuses ==> c == "gray"
    ensures c == "green" <==> status == "approved" || status == "completed"
  {
    if status == "pending" then "yellow"
    else if status == "approved" then "green"
    else if status == "partially_approved" then "blue"
    else if status == "rejected" then "red"
    else if status == "in_progress" then "purple"
    else if status == "completed" then "green"
    else "gray"
  }

  /** The badge colour of a priority; any other value is gray. */
  function PriorityColor(priority: string): (c: string)
    ensures c in {"red", "orange", "blue", "gray"}
    ensures priority !in Priorities ==> c == "gray"
    ensures c == "gray" <==> priority == "low" || priority !in Priorities
  {
    if priority == "urgent" then "red"
    else if priority == "high" then "orange"
    else if priority == "normal" then "blue"
    else "gray"
  }

  /** The CASE of the ORDER BY: 1 for urgent to 4 for low, NULL for any other priority. */
  function PriorityRank(priority: string): (rank: Option<int>)
    ensures rank.Some? <==> priority in Priorities
    ensures rank.Some? ==> 1 <= rank.value <= 4
  {
    if priority == "urgent" then Some(1)
    else if priority == "high" then Some(2)
    else if priority == "normal" then Some(3)
    else if priority == "low" then Some(4)
    else None
  }

  /** Ascending order of the CASE value, where MySQL puts NULL before every number. */
  predicate RankAtMost(a: Option<int>, b: Option<int>)
  {
    a.None? || (b.Some? && a.value <= b.value)
  }

  /** `a` may be listed before `b`: a smaller priority rank, or the same one and a later or equal date. */
  predicate ListedBefore(a: ItemRequest, b: ItemRequest)
  {
    var ra, rb := PriorityRank(a.priority), PriorityRank(b.priority);
    RankAtMost(ra, rb) && (RankAtMost(rb, ra) ==> a.requestedAt >= b.requestedAt)
  }

  /** The list order is total: of any two requests, one may come first. */
  lemma ListedBeforeTotal(a: ItemRequest, b: ItemRequest)
    ensures ListedBefore(a, b) || ListedBefore(b, a)
  {
  }

  /** The list order is transitive. */
  lemma ListedBeforeTransitive(a: ItemRequest, b: ItemRequest, c: ItemRequest)
    requires ListedBefore(a, b) && ListedBefore(b, c)
    ensures ListedBefore(a, c)
  {
  }

  /** Urgent before high before normal before low, whatever the dates. */
  lemma PriorityOrder(a: ItemRequest, b: ItemRequest)
    requires PriorityRank(a.priority).Some? && PriorityRank(b.priority).Some?
    requires PriorityRank(a.priority).value < PriorityRank(b.priority).value
    ensures ListedBefore(a, b) && !ListedBefore(b, a)
  {
  }

  /** A request whose priority is none of the four is listed even before the urgent ones. */
  lemma UnknownPriorityFirst(a: ItemRequest, b: ItemRequest)
    requires a.priority !in Priorities && b.priority == "urgent"
    ensures ListedBefore(a, b) && !ListedBefore(b, a)
  {
  }

  /** Every priority the handlers store is one of the four, so the NULL rank never arises from them. */
  lemma StoredPrioritiesRanked(current: ItemRequest, status: string, newPriority: string, q: Option<int>,
                               notes: string, user: int, now: Timestamp)
    requires current.priority in Priorities
    requires Truthy(newPriority) ==> newPriority in Priorities
    ensures PriorityRank(StatusUpdated(current, status, newPriority, q, notes, user, now).priority).Some?
  {
    StampsFollowStatus(current, status, newPriority, q, notes, user, now);
  }
}
