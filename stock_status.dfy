/**
 * The two stock-status classifiers: the multi-location one of the inventory page
 * (No Stock, Critical, Low Stock, Over Stock, Full Stock, Ok Stock, first match wins)
 * and the single-location one of the audit page (No Stock, Low Stock, Ok Stock).
 */
module StockStatus {
  import opened Common

  /** One row of an item's per-location stock: location name, quantity and reorder threshold. */
  datatype LocationStock = LocationStock(locationName: string, quantity: int, threshold: int)

  datatype Status = NoStock | Critical | LowStock | OverStock | FullStock | OkStock

  /** The status, its badge colour and the explanatory text. */
  datatype Verdict = Verdict(status: Status, color: string, details: string)

  /** A location with nothing in stock. */
  predicate EmptyAt(s: LocationStock)
  {
    s.quantity == 0
  }

  /** A stocked location below its own (positive) reorder threshold. */
  predicate LowAt(s: LocationStock)
  {
    s.quantity != 0 && s.quantity < s.threshold && s.threshold > 0
  }

  /** The names of the empty locations, in input order. */
  function EmptyNames(stocks: seq<LocationStock>): (names: seq<string>)
    ensures |names| <= |stocks|
    ensures forall n :: n in names <==> exists i :: 0 <= i < |stocks| && EmptyAt(stocks[i]) && stocks[i].locationName == n
    ensures names == [] <==> forall i :: 0 <= i < |stocks| ==> !EmptyAt(stocks[i])
  {
    if stocks == [] then []
    else
      var rest := EmptyNames(stocks[1..]);
      assert forall i :: 1 <= i < |stocks| ==> stocks[i] == stocks[1..][i - 1];
      (if EmptyAt(stocks[0]) then [stocks[0].locationName] else []) + rest
  }

  /** The names of the low locations, in input order. */
  function LowNames(stocks: seq<LocationStock>): (names: seq<string>)
    ensures |names| <= |stocks|
    ensures forall n :: n in names <==> exists i :: 0 <= i < |stocks| && LowAt(stocks[i]) && stocks[i].locationName == n
    ensures names == [] <==> forall i :: 0 <= i < |stocks| ==> !LowAt(stocks[i])
  {
    if stocks == [] then []
    else
      var rest := LowNames(stocks[1..]);
      assert forall i :: 1 <= i < |stocks| ==> stocks[i] == stocks[1..][i - 1];
      (if LowAt(stocks[0]) then [stocks[0].locationName] else []) + rest
  }

  /** `$full_quantity && ...`: a full quantity counts only when it is present and non-zero. */
  predicate HasTarget(fullQuantity: Option<int>)
  {
    fullQuantity.Some? && fullQuantity.value != 0
  }

  /**
   * getStockStatus of the inventory page. `total` is the SQL SUM over the item's stock rows
   * (0 when there are none); `reorderThreshold` is the item-global legacy threshold, which the
   * page passes in and the rules never consult.
   */
  function Classify(total: int, reorderThreshold: int, fullQuantity: Option<int>, stocks: seq<LocationStock>): (v: Verdict)
    ensures v.status == NoStock <==> total == 0
    ensures v.status == NoStock ==> v.color == "red" && v.details == "No stock at any location"
    ensures v.status == Critical <==> total != 0 && exists i :: 0 <= i < |stocks| && EmptyAt(stocks[i])
    ensures v.status == Critical ==> v.color == "red" && v.details == "No stock at: " + Join(EmptyNames(stocks), ", ")
    ensures v.status == LowStock <==>
              && total != 0
              && (forall i :: 0 <= i < |stocks| ==> !EmptyAt(stocks[i]))
              && (exists i :: 0 <= i < |stocks| && LowAt(stocks[i]))
    ensures v.status == LowStock ==> v.color == "yellow" && v.details == "Low stock at: " + Join(LowNames(stocks), ", ")
    ensures v.status in {OverStock, FullStock} ==> HasTarget(fullQuantity)
    ensures v.status == OverStock ==> total > fullQuantity.value && v.color == "purple"
    ensures v.status == FullStock ==> total == fullQuantity.value && v.color == "blue"
    ensures v.status == OkStock ==> v.color == "green" && (HasTarget(fullQuantity) ==> total < fullQuantity.value)
  {
    var empty := EmptyNames(stocks);
    var low := LowNames(stocks);
    if total == 0 then Verdict(NoStock, "red", "No stock at any location")
    else if empty != [] then Verdict(Critical, "red", "No stock at: " + Join(empty, ", "))
    else if low != [] then Verdict(LowStock, "yellow", "Low stock at: " + Join(low, ", "))
    else if HasTarget(fullQuantity) && total > fullQuantity.value then
      Verdict(OverStock, "purple", "Total stock exceeds target")
    else if HasTarget(fullQuantity) && total == fullQuantity.value then
      Verdict(FullStock, "blue", "At target stock level")
    else Verdict(OkStock, "green", "All locations adequately stocked")
  }

  /** getStockStatus of the audit page: one location's quantity against its threshold. */
  function ClassifyAt(quantity: int, threshold: int): (v: Verdict)
    ensures v.status in {NoStock, LowStock, OkStock}
    ensures v.status == NoStock <==> quantity == 0
    ensures v.status == LowStock <==> LowAt(LocationStock("", quantity, threshold))
    ensures v.color == (if v.status == NoStock then "red" else if v.status == LowStock then "yellow" else "green")
  {
    if quantity == 0 then Verdict(NoStock, "red", "No stock at this location")
    else if quantity < threshold && threshold > 0 then Verdict(LowStock, "yellow", "Below reorder threshold")
    else Verdict(OkStock, "green", "Adequately stocked")
  }

  /** Listing the empty locations of a concatenation lists those of each part, in order. */
  lemma {:induction false} EmptyNamesAppend(a: seq<LocationStock>, b: seq<LocationStock>)
    ensures EmptyNames(a + b) == EmptyNames(a) + EmptyNames(b)
  {
    if a == [] {
      assert a + b == b;
    } else {
      assert (a + b)[1..] == a[1..] + b;
      EmptyNamesAppend(a[1..], b);
    }
  }

  /** Listing the low locations of a concatenation lists those of each part, in order. */
  lemma {:induction false} LowNamesAppend(a: seq<LocationStock>, b: seq<LocationStock>)
    ensures LowNames(a + b) == LowNames(a) + LowNames(b)
  {
    if a == [] {
      assert a + b == b;
    } else {
      assert (a + b)[1..] == a[1..] + b;
      LowNamesAppend(a[1..], b);
    }
  }

  /** A threshold of zero never makes a location low, whatever its quantity. */
  lemma ZeroThresholdNeverLow(total: int, r: int, f: Option<int>, stocks: seq<LocationStock>)
    requires forall i :: 0 <= i < |stocks| ==> stocks[i].threshold == 0
    ensures Classify(total, r, f, stocks).status != LowStock
  {
    assert forall i :: 0 <= i < |stocks| ==> !LowAt(stocks[i]);
  }

  /** The item-global reorder threshold passed to the classifier never changes its verdict. */
  lemma ItemThresholdIgnored(total: int, r1: int, r2: int, f: Option<int>, stocks: seq<LocationStock>)
    ensures Classify(total, r1, f, stocks) == Classify(total, r2, f, stocks)
  {
  }

  /** An empty location rules out Low Stock and every better status. */
  lemma EmptyLocationIsNoStockOrCritical(total: int, r: int, f: Option<int>, stocks: seq<LocationStock>, i: int)
    requires 0 <= i < |stocks| && EmptyAt(stocks[i])
    ensures Classify(total, r, f, stocks).status in {NoStock, Critical}
  {
  }

  /**
   * On one location and no target quantity the two classifiers agree; with a target quantity
   * they can differ, so the multi-location rules are not a reduction of the single-location ones.
   */
  lemma SingleLocationAgreement(name: string, q: int, t: int, r: int)
    ensures Classify(q, r, None, [LocationStock(name, q, t)]).status == ClassifyAt(q, t).status
    ensures Classify(10, r, Some(10), [LocationStock(name, 10, 0)]).status == FullStock
    ensures ClassifyAt(10, 0).status == OkStock
  {
    var s := [LocationStock(name, q, t)];
    assert EmptyAt(s[0]) <==> q == 0;
    assert LowAt(s[0]) <==> LowAt(LocationStock("", q, t));
  }

  /** Item A: location 1 empty and location 2 holding 3 of threshold 5 is Critical, naming location 1. */
  lemma CriticalScenario()
    ensures Classify(3, 0, None, [LocationStock("Loc 1", 0, 5), LocationStock("Loc 2", 3, 5)])
            == Verdict(Critical, "red", "No stock at: Loc 1")
  {
    var s := [LocationStock("Loc 1", 0, 5), LocationStock("Loc 2", 3, 5)];
    assert s == [s[0]] + [s[1]];
    EmptyNamesAppend([s[0]], [s[1]]);
    assert EmptyNames([s[1]]) == [];
  }

  /** Item B: one location holding 2 of threshold 5 with a target of 10 is Low Stock. */
  lemma LowScenario()
    ensures Classify(2, 0, Some(10), [LocationStock("Shelf", 2, 5)]).status == LowStock
  {
    var s := [LocationStock("Shelf", 2, 5)];
    assert LowAt(s[0]);
  }
}
