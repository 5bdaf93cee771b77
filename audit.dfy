/**
 * The audit page: correcting the quantity held at one location (adjust_stock), asking for an
 * item to be moved to a location (request_item), and the list of items stocked at the selected
 * location, where a repeated item is shown once.
 */
module Audit {
  import opened Common
  import opened Schema
  import Locations

  // ---------------------------------------------------------------------------------------
  // adjust_stock

  /** Why an adjustment is refused, checked in the handler's order; None when it goes ahead. */
  function AdjustError(stocks: map<StockKey, StockRecord>, itemId: int, locationId: int, newQuantity: int)
    : (e: Option<string>)
    ensures e == None <==> itemId != 0 && locationId != 0 && newQuantity >= 0 && StockKey(itemId, locationId) in stocks
    ensures itemId == 0 || locationId == 0 ==> e == Some("Invalid item or location ID.")
    ensures itemId != 0 && locationId != 0 && newQuantity < 0 ==> e == Some("Stock quantity cannot be negative.")
    ensures itemId != 0 && locationId != 0 && newQuantity >= 0 && StockKey(itemId, locationId) !in stocks ==>
              e == Some("Stock record not found.")
  {
    if itemId == 0 || locationId == 0 then Some("Invalid item or location ID.")
    else if newQuantity < 0 then Some("Stock quantity cannot be negative.")
    else if StockKey(itemId, locationId) !in stocks then Some("Stock record not found.")
    else None
  }

  /** The stock table and the history, the two tables an adjustment writes. */
  datatype Ledger = Ledger(stocks: map<StockKey, StockRecord>, history: seq<HistoryEntry>)

  /**
   * A successful adjustment: the record's quantity becomes the counted one and its adjustment
   * time is stamped; one 'stock_adjust' row records old, new and the difference.
   */
  function Adjusted(l: Ledger, itemId: int, locationId: int, newQuantity: int, reason: string, user: int, now: Timestamp)
    : (r: Ledger)
    requires StockKey(itemId, locationId) in l.stocks
    ensures r.stocks.Keys == l.stocks.Keys
    ensures forall k :: k in l.stocks && k != StockKey(itemId, locationId) ==> r.stocks[k] == l.stocks[k]
    ensures r.stocks[StockKey(itemId, locationId)] ==
              l.stocks[StockKey(itemId, locationId)].(quantity := newQuantity, lastAdjustedAt := Some(now))
    ensures |r.history| == |l.history| + 1 && r.history[..|l.history|] == l.history
    ensures var a := r.history[|l.history|].action;
            && r.history[|l.history|].itemId == itemId && ActionType(a) == "stock_adjust"
            && a == StockAdjusted(locationId, l.stocks[StockKey(itemId, locationId)].quantity, newQuantity,
                                  newQuantity - l.stocks[StockKey(itemId, locationId)].quantity, Trim(reason))
  {
    var key := StockKey(itemId, locationId);
    var before := l.stocks[key];
    Ledger(l.stocks[key := before.(quantity := newQuantity, lastAdjustedAt := Some(now))],
           l.history + [HistoryEntry(itemId, user, StockAdjusted(locationId, before.quantity, newQuantity,
                                                                 newQuantity - before.quantity, Trim(reason)))])
  }

  /**
   * adjust_stock: refused, with nothing written, when AdjustError names a reason; otherwise the
   * stock table and the history become those of Adjusted.
   */
  method AdjustStock(db: Database, itemId: int, locationId: int, newQuantity: int, reason: string,
                     user: int, now: Timestamp)
    returns (r: Outcome)
    modifies db`stocks, db`history
    ensures AdjustError(old(db.stocks), itemId, locationId, newQuantity).Some? ==>
              && r == Failed(AdjustError(old(db.stocks), itemId, locationId, newQuantity).value)
              && db.stocks == old(db.stocks) && db.history == old(db.history)
    ensures AdjustError(old(db.stocks), itemId, locationId, newQuantity).None? ==>
              && r == Done
              && Ledger(db.stocks, db.history) ==
                 Adjusted(Ledger(old(db.stocks), old(db.history)), itemId, locationId, newQuantity, reason, user, now)
  {
    var e := AdjustError(db.stocks, itemId, locationId, newQuantity);
    if e.Some? {
      return Failed(e.value);
    }
    var key := StockKey(itemId, locationId);
    var current := db.stocks[key].quantity;
    db.stocks := db.stocks[key := db.stocks[key].(quantity := newQuantity, lastAdjustedAt := Some(now))];
    db.history := db.history + [HistoryEntry(itemId, user, StockAdjusted(locationId, current, newQuantity,
                                                                         newQuantity - current, Trim(reason)))];
    r := Done;
  }

  /** Consecutive counts of one record, each adjusted in turn. */
  function AdjustedSeries(l: Ledger, itemId: int, locationId: int, counts: seq<int>, user: int, now: Timestamp)
    : (r: Ledger)
    requires StockKey(itemId, locationId) in l.stocks
    ensures r.stocks.Keys == l.stocks.Keys
    ensures |r.history| == |l.history| + |counts| && r.history[..|l.history|] == l.history
    decreases |counts|
  {
    if counts == [] then l
    else
      var r := AdjustedSeries(Adjusted(l, itemId, locationId, counts[0], "", user, now), itemId, locationId, counts[1..], user, now);
      assert r.history[..|l.history|] == r.history[..|l.history| + 1][..|l.history|];
      r
  }

  /** The sum of the adjustment amounts the history rows from position `from` on record. */
  function AmountSum(h: seq<HistoryEntry>, from: nat): int
    decreases |h| - from
  {
    if from >= |h| then 0
    else (if h[from].action.StockAdjusted? then h[from].action.amount else 0) + AmountSum(h, from + 1)
  }

  /**
   * The ledger reconciles: after any run of adjustments of one record, the amounts the new
   * history rows record add up to the record's final quantity minus its first one.
   */
  lemma {:induction false} AmountsReconcile(l: Ledger, itemId: int, locationId: int, counts: seq<int>, user: int, now: Timestamp)
    requires StockKey(itemId, locationId) in l.stocks
    ensures var r := AdjustedSeries(l, itemId, locationId, counts, user, now);
            AmountSum(r.history, |l.history|) ==
              r.stocks[StockKey(itemId, locationId)].quantity - l.stocks[StockKey(itemId, locationId)].quantity
    decreases |counts|
  {
    var key := StockKey(itemId, locationId);
    var r := AdjustedSeries(l, itemId, locationId, counts, user, now);
    if counts == [] {
      assert AmountSum(r.history, |l.history|) == 0;
    } else {
      var l1 := Adjusted(l, itemId, locationId, counts[0], "", user, now);
      AmountsReconcile(l1, itemId, locationId, counts[1..], user, now);
      assert r == AdjustedSeries(l1, itemId, locationId, counts[1..], user, now);
      assert r.history[|l.history|] == r.history[..|l1.history|][|l.history|] == l1.history[|l.history|];
      assert AmountSum(r.history, |l.history|) == counts[0] - l.stocks[key].quantity + AmountSum(r.history, |l1.history|);
    }
  }

  // ---------------------------------------------------------------------------------------
  // request_item

  /** Why a request is refused, in the handler's order; `dateParses` is the date parser's verdict. */
  function RequestError(itemId: int, quantity: int, neededBy: Option<string>, dateParses: bool): (e: Option<string>)
    ensures e == None <==> itemId != 0 && quantity > 0 && (neededBy.Some? && Truthy(neededBy.value) ==> dateParses)
    ensures itemId == 0 ==> e == Some("Invalid item ID.")
    ensures itemId != 0 && quantity <= 0 ==> e == Some("Requested quantity must be greater than zero.")
  {
    if itemId == 0 then Some("Invalid item ID.")
    else if quantity <= 0 then Some("Requested quantity must be greater than zero.")
    else if neededBy.Some? && Truthy(neededBy.value) && !dateParses then Some("Invalid date format.")
    else None
  }

  /** The submitted priority, or 'normal' when it is missing or not one of the four. */
  function NormalPriority(priority: Option<string>): (p: string)
    ensures p in Priorities
    ensures priority.Some? && priority.value in Priorities ==> p == priority.value
    ensures priority.None? || priority.value !in Priorities ==> p == "normal"
  {
    if priority.Some? && priority.value in Priorities then priority.value else "normal"
  }

  /**
   * The row request_item inserts: no source location, a destination only when one was chosen,
   * a needed-by date only when one was given, the normalised priority, the trimmed reason, and
   * the status the table gives a new row.
   */
  function NewRequest(itemId: int, user: int, toLocation: int, quantity: int, priority: Option<string>,
                      reason: string, neededBy: Option<string>, defaultStatus: string, now: Timestamp)
    : (r: ItemRequest)
    ensures r.fromLocation == None
    ensures r.toLocation == None <==> toLocation == 0
    ensures r.toLocation.Some? ==> r.toLocation.value == toLocation
    ensures r.neededBy.Some? <==> neededBy.Some? && Truthy(neededBy.value)
    ensures r.neededBy.Some? ==> r.neededBy == neededBy
    ensures r.priority in Priorities && r.status == defaultStatus
    ensures r.quantityApproved == None && r.approvedBy == None && r.completedBy == None
  {
    ItemRequest(itemId, user, None, if toLocation != 0 then Some(toLocation) else None,
                quantity, None, NormalPriority(priority), defaultStatus, Trim(reason),
                if neededBy.Some? && Truthy(neededBy.value) then neededBy else None, now,
                None, None, None, None, None)
  }

  /**
   * request_item: refused, with nothing written, when RequestError names a reason; otherwise the
   * normalised row is inserted under the next id and one 'assignment' history row records it,
   * with the destination as submitted (0 when none was chosen).
   */
  method RequestItem(db: Database, itemId: int, toLocation: int, quantity: int, priority: Option<string>,
                     reason: string, neededBy: Option<string>, dateParses: bool, user: int,
                     newId: int, now: Timestamp)
    returns (r: Outcome)
    requires newId !in db.requests
    modifies db`requests, db`history
    ensures RequestError(itemId, quantity, neededBy, dateParses).Some? ==>
              && r == Failed(RequestError(itemId, quantity, neededBy, dateParses).value)
              && db.requests == old(db.requests) && db.history == old(db.history)
    ensures RequestError(itemId, quantity, neededBy, dateParses).None? ==>
              && r == Done
              && db.requests == old(db.requests)[newId := NewRequest(itemId, user, toLocation, quantity, priority, reason,
                                                                     neededBy, db.requestStatusDefault, now)]
              && db.history == old(db.history) +
                   [HistoryEntry(itemId, user, ItemRequested(newId, toLocation, quantity, NormalPriority(priority), Trim(reason)))]
  {
    var e := RequestError(itemId, quantity, neededBy, dateParses);
    if e.Some? {
      return Failed(e.value);
    }
    var p := NormalPriority(priority);
    db.requests := db.requests[newId := NewRequest(itemId, user, toLocation, quantity, priority, reason,
                                                   neededBy, db.requestStatusDefault, now)];
    db.history := db.history + [HistoryEntry(itemId, user, ItemRequested(newId, toLocation, quantity, p, Trim(reason)))];
    r := Done;
  }

  /** The falsy date "0" is neither checked nor stored, whatever the parser says. */
  lemma ZeroDateIgnored(itemId: int, user: int, quantity: int, status: string, now: Timestamp)
    requires itemId != 0 && quantity > 0
    ensures RequestError(itemId, quantity, Some("0"), false) == None
    ensures NewRequest(itemId, user, 0, quantity, None, "", Some("0"), status, now).neededBy == None
  {
  }

  // ---------------------------------------------------------------------------------------
  // The items stocked at the selected location

  /** One row of the location's item list. */
  datatype AuditRow = AuditRow(itemId: int, name: string, quantity: int, threshold: int)

  function ItemIds(rows: seq<AuditRow>): (ids: seq<int>)
    ensures |ids| == |rows| && forall i :: 0 <= i < |rows| ==> ids[i] == rows[i].itemId
  {
    seq(|rows|, i requires 0 <= i < |rows| => rows[i].itemId)
  }

  /** Some item appears in two rows. */
  predicate HasDuplicateIds(rows: seq<AuditRow>)
  {
    exists i, j :: 0 <= i < j < |rows| && rows[i].itemId == rows[j].itemId
  }

  /** The rows that are the first of their item, in row order. */
  function Deduplicated(rows: seq<AuditRow>): (unique: seq<AuditRow>)
    ensures |unique| <= |rows|
  {
    var ps := FirstPositions(ItemIds(rows), |rows|);
    seq(|ps|, k requires 0 <= k < |ps| => rows[ps[k]])
  }

  /** Each item appears once after duplicate removal, and every item of the input is still there. */
  lemma DeduplicatedIsUnique(rows: seq<AuditRow>)
    ensures var u := Deduplicated(rows);
            && (forall k, l :: 0 <= k < l < |u| ==> u[k].itemId != u[l].itemId)
            && (forall j :: 0 <= j < |rows| ==> exists k :: 0 <= k < |u| && u[k].itemId == rows[j].itemId)
  {
    var keys := ItemIds(rows);
    var ps := FirstPositions(keys, |rows|);
    var u := Deduplicated(rows);
    FirstPositionsDistinct(keys, |rows|);
    forall k, l | 0 <= k < l < |u|
      ensures u[k].itemId != u[l].itemId
    {
      assert u[k].itemId == keys[ps[k]] && u[l].itemId == keys[ps[l]];
    }
    forall j | 0 <= j < |rows|
      ensures exists k :: 0 <= k < |u| && u[k].itemId == rows[j].itemId
    {
      FirstPositionsCover(keys, |rows|, j);
      var k :| 0 <= k < |ps| && keys[ps[k]] == keys[j];
      assert u[k] == rows[ps[k]];
    }
  }

  /** A row is kept exactly when no earlier row has its item, and kept rows keep their order. */
  lemma DeduplicatedKeepsFirsts(rows: seq<AuditRow>)
    ensures var u := Deduplicated(rows);
            forall j :: 0 <= j < |rows| ==>
              ((forall i :: 0 <= i < j ==> rows[i].itemId != rows[j].itemId) <==>
               exists k :: 0 <= k < |u| && u[k] == rows[j] && FirstPositions(ItemIds(rows), |rows|)[k] == j)
  {
    var keys := ItemIds(rows);
    var ps := FirstPositions(keys, |rows|);
    forall j | 0 <= j < |rows| && (forall i :: 0 <= i < j ==> rows[i].itemId != rows[j].itemId)
      ensures exists k :: 0 <= k < |ps| && ps[k] == j
    {
      assert FirstAt(keys, j);
    }
    forall j, k | 0 <= j < |rows| && 0 <= k < |ps| && ps[k] == j
      ensures forall i :: 0 <= i < j ==> rows[i].itemId != rows[j].itemId
    {
      assert FirstAt(keys, ps[k]);
    }
  }

  /** Without a repeated item, removal keeps the list as it is. */
  lemma DistinctRowsUnchanged(rows: seq<AuditRow>)
    requires !HasDuplicateIds(rows)
    ensures Deduplicated(rows) == rows
  {
    var keys := ItemIds(rows);
    FirstPositionsAll(keys, |rows|);
  }

  /**
   * The duplicate check and removal loop: when some item repeats, the rows are copied keeping a
   * row only if its item id has not been seen; otherwise the list is kept as it is.
   */
  method RemoveDuplicateItems(rows: seq<AuditRow>) returns (unique: seq<AuditRow>)
    ensures unique == Deduplicated(rows)
  {
    if !HasDuplicateIds(rows) {
      DistinctRowsUnchanged(rows);
      return rows;
    }
    unique := [];
    var seen: seq<int> := [];
    for i := 0 to |rows|
      invariant Kept(unique, seen, rows, i)
    {
      if rows[i].itemId !in seen {
        KeepFirst(unique, seen, rows, i);
        unique := unique + [rows[i]];
        seen := seen + [rows[i].itemId];
      } else {
        SkipRepeat(unique, seen, rows, i);
      }
    }
    SameRows(unique, rows, FirstPositions(ItemIds(rows), |rows|));
  }

  /** The loop's state after `i` rows: the first row of each id so far, in order, and the ids seen. */
  ghost predicate Kept(unique: seq<AuditRow>, seen: seq<int>, rows: seq<AuditRow>, i: nat)
    requires i <= |rows|
  {
    var ps := FirstPositions(ItemIds(rows), i);
    && |unique| == |ps|
    && (forall k :: 0 <= k < |unique| ==> unique[k] == rows[ps[k]])
    && (forall id :: id in seen <==> id in ItemIds(rows)[..i])
  }

  /** A row whose id is new is kept. */
  lemma KeepFirst(unique: seq<AuditRow>, seen: seq<int>, rows: seq<AuditRow>, i: nat)
    requires i < |rows| && Kept(unique, seen, rows, i) && rows[i].itemId !in seen
    ensures Kept(unique + [rows[i]], seen + [rows[i].itemId], rows, i + 1)
  {
    var keys := ItemIds(rows);
    FirstPositionsStep(keys, i);
    PrefixStep(keys, i);
  }

  /** A row whose id was seen before is dropped. */
  lemma SkipRepeat(unique: seq<AuditRow>, seen: seq<int>, rows: seq<AuditRow>, i: nat)
    requires i < |rows| && Kept(unique, seen, rows, i) && rows[i].itemId in seen
    ensures Kept(unique, seen, rows, i + 1)
  {
    var keys := ItemIds(rows);
    FirstPositionsStep(keys, i);
    PrefixStep(keys, i);
  }

  lemma SameRows(unique: seq<AuditRow>, rows: seq<AuditRow>, ps: seq<nat>)
    requires ps == FirstPositions(ItemIds(rows), |rows|)
    requires |unique| == |ps| && forall k :: 0 <= k < |unique| ==> unique[k] == rows[ps[k]]
    ensures unique == Deduplicated(rows)
  {
  }

  // ---------------------------------------------------------------------------------------
  // The site and location picker

  /**
   * The picker groups the active sites' active locations with the loop of the locations page,
   * attaching every row that has a location: each such row's location is in its site's group,
   * in the group named from the site's first row.
   */
  lemma PickerListsEveryLocation(rows: seq<Locations.SiteRow>, j: nat)
    requires j < |rows| && rows[j].locationId != 0
    ensures exists k :: 0 <= k < |Locations.Grouped(rows, true)|
              && Locations.Grouped(rows, true)[k].siteId == rows[j].siteId
              && Locations.Entry(rows[j]) in Locations.Grouped(rows, true)[k].locations
  {
    var gs := Locations.Grouped(rows, true);
    Locations.GroupedOncePerSite(rows, true);
    var k :| 0 <= k < |gs| && gs[k].siteId == rows[j].siteId;
    Locations.AttachedToMembers(rows, |rows|, rows[j].siteId, true);
    assert Locations.Attached(rows[j], true);
  }

  /** Conversely, every location the picker lists under a site comes from a row of that site that has a location. */
  lemma PickerListsOnlyRowLocations(rows: seq<Locations.SiteRow>, k: nat, l: Locations.LocationEntry)
    requires k < |Locations.Grouped(rows, true)| && l in Locations.Grouped(rows, true)[k].locations
    ensures exists j :: 0 <= j < |rows| && rows[j].siteId == Locations.Grouped(rows, true)[k].siteId
              && rows[j].locationId != 0 && Locations.Entry(rows[j]) == l
  {
    var g := Locations.Grouped(rows, true)[k];
    Locations.AttachedToMembers(rows, |rows|, g.siteId, true);
    var j :| 0 <= j < |rows| && rows[j].siteId == g.siteId && Locations.Attached(rows[j], true) && Locations.Entry(rows[j]) == l;
  }
}
