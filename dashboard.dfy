/**
 * The two dashboard counts of a category: active items in the category's tree whose total stock
 * is positive but at most the item's reorder threshold, and active items with no stock at all.
 * The tree is the recursive query's: the category row itself, active or not, then every active
 * category whose parent is already in the tree.
 */
module Dashboard {
  import opened Common
  import opened Schema
  import Categories
  import StockStatus

  // ---------------------------------------------------------------------------------------
  // The recursive category query

  /**
   * The recursive step below `key`, from row i on: each active row whose parent is `key`,
   * followed at once by the rows the step adds below it. `path` holds the ids being expanded;
   * a row already on it is listed but not expanded again.
   */
  function Below(cats: seq<Category>, i: nat, key: int, path: set<int>): (ids: seq<int>)
    requires i <= |cats|
    ensures forall x :: x in ids ==> x in Categories.Ids(cats)
    decreases Categories.Ids(cats) - path, |cats| - i
  {
    if i == |cats| then []
    else Child(cats, i, key, path) + Below(cats, i + 1, key, path)
  }

  /** What row i contributes to Below: nothing, or its id followed by the rows below it. */
  function Child(cats: seq<Category>, i: nat, key: int, path: set<int>): (ids: seq<int>)
    requires i < |cats|
    ensures forall x :: x in ids ==> x in Categories.Ids(cats)
    ensures ids != [] <==> cats[i].active && cats[i].parent == Some(key)
    ensures ids != [] ==> ids[0] == cats[i].id
    decreases Categories.Ids(cats) - path, |cats| - i, 0
  {
    var c := cats[i];
    if !(c.active && c.parent == Some(key)) then []
    else if c.id in path then [c.id]
    else
      assert c.id in Categories.Ids(cats) - path;
      [c.id] + Below(cats, 0, c.id, path + {c.id})
  }

  /** The ids the recursive query yields for `base`: none when no category has that id. */
  function CategoryTree(cats: seq<Category>, base: int): (ids: seq<int>)
    ensures ids == [] <==> base !in Categories.Ids(cats)
    ensures ids != [] ==> ids[0] == base
    ensures forall x :: x in ids ==> x in Categories.Ids(cats)
  {
    if base in Categories.Ids(cats) then [base] + Below(cats, 0, base, {base}) else []
  }

  /** `x` is reached from `key` by `d + 1` steps, each through an active row whose parent is the previous id. */
  ghost predicate ReachedFrom(cats: seq<Category>, x: int, key: int, d: nat)
    decreases d
  {
    exists j :: 0 <= j < |cats| && cats[j].active && cats[j].parent == Some(key) &&
      (if d == 0 then cats[j].id == x else ReachedFrom(cats, x, cats[j].id, d - 1))
  }

  lemma {:induction false} BelowSound(cats: seq<Category>, i: nat, key: int, path: set<int>, x: int)
    requires i <= |cats| && x in Below(cats, i, key, path)
    ensures exists d: nat :: ReachedFrom(cats, x, key, d)
    decreases Categories.Ids(cats) - path, |cats| - i
  {
    if x in Child(cats, i, key, path) {
      ChildSound(cats, i, key, path, x);
    } else {
      BelowSound(cats, i + 1, key, path, x);
    }
  }

  lemma {:induction false} ChildSound(cats: seq<Category>, i: nat, key: int, path: set<int>, x: int)
    requires i < |cats| && x in Child(cats, i, key, path)
    ensures exists d: nat :: ReachedFrom(cats, x, key, d)
    decreases Categories.Ids(cats) - path, |cats| - i, 0
  {
    var c := cats[i];
    if x == c.id {
      assert ReachedFrom(cats, x, key, 0);
    } else {
      assert c.id !in path && x in Below(cats, 0, c.id, path + {c.id});
      assert c.id in Categories.Ids(cats) - path;
      BelowSound(cats, 0, c.id, path + {c.id}, x);
      var d: nat :| ReachedFrom(cats, x, c.id, d);
      assert 0 <= i < |cats| && cats[i].active && cats[i].parent == Some(key) && ReachedFrom(cats, x, cats[i].id, d);
      assert ReachedFrom(cats, x, key, d + 1);
    }
  }

  /** Every id in the tree other than the base is reached from the base through active categories only. */
  lemma TreeSound(cats: seq<Category>, base: int, k: int)
    requires 0 < k < |CategoryTree(cats, base)|
    ensures exists d: nat :: ReachedFrom(cats, CategoryTree(cats, base)[k], base, d)
  {
    var t := CategoryTree(cats, base);
    assert t[k] in Below(cats, 0, base, {base});
    BelowSound(cats, 0, base, {base}, t[k]);
  }

  /** A chain through active categories ends at an active category with that id. */
  lemma {:induction false} ReachedIsActive(cats: seq<Category>, x: int, key: int, d: nat)
    requires ReachedFrom(cats, x, key, d)
    ensures exists j :: 0 <= j < |cats| && cats[j].id == x && cats[j].active
    decreases d
  {
    var j :| 0 <= j < |cats| && cats[j].active && cats[j].parent == Some(key) &&
             (if d == 0 then cats[j].id == x else ReachedFrom(cats, x, cats[j].id, d - 1));
    if d > 0 {
      ReachedIsActive(cats, x, cats[j].id, d - 1);
    }
  }

  /** A category whose every row is inactive is in no tree but its own. */
  lemma InactiveCutOff(cats: seq<Category>, base: int, x: int)
    requires x != base
    requires forall j :: 0 <= j < |cats| && cats[j].id == x ==> !cats[j].active
    ensures x !in CategoryTree(cats, base)
  {
    var t := CategoryTree(cats, base);
    if x in t {
      var k :| 0 <= k < |t| && t[k] == x;
      TreeSound(cats, base, k);
      var d: nat :| ReachedFrom(cats, x, base, d);
      ReachedIsActive(cats, x, base, d);
    }
  }

  lemma {:induction false} ChildInBelow(cats: seq<Category>, i: nat, j: nat, key: int, path: set<int>)
    requires i <= j < |cats|
    ensures forall x :: x in Child(cats, j, key, path) ==> x in Below(cats, i, key, path)
    decreases j - i
  {
    if i < j {
      ChildInBelow(cats, i + 1, j, key, path);
    }
  }

  /** On acyclic parent links, the rows below `key` include every id reached from it. */
  lemma {:induction false} BelowComplete(cats: seq<Category>, rank: int -> nat, key: int, path: set<int>, x: int, d: nat)
    requires Categories.Ranked(cats, rank)
    requires forall y :: y in path ==> rank(y) <= rank(key)
    requires ReachedFrom(cats, x, key, d)
    ensures x in Below(cats, 0, key, path)
    decreases d
  {
    var j :| 0 <= j < |cats| && cats[j].active && cats[j].parent == Some(key) &&
             (if d == 0 then cats[j].id == x else ReachedFrom(cats, x, cats[j].id, d - 1));
    var c := cats[j];
    assert c in cats && Categories.ParentKey(c) == key;
    assert c.id !in path;
    ChildInBelow(cats, 0, j, key, path);
    if d > 0 {
      BelowComplete(cats, rank, c.id, path + {c.id}, x, d - 1);
    }
  }

  /** On acyclic parent links, the tree holds every category reached from the base through active ones. */
  lemma TreeComplete(cats: seq<Category>, rank: int -> nat, base: int, x: int, d: nat)
    requires Categories.Ranked(cats, rank)
    requires base in Categories.Ids(cats) && ReachedFrom(cats, x, base, d)
    ensures x in CategoryTree(cats, base)
  {
    BelowComplete(cats, rank, base, {base}, x, d);
  }

  /** An inactive middle category hides its active child; an inactive base still yields its active children. */
  lemma TreeExamples()
    ensures CategoryTree([Category(1, "Tools", None, "", true), Category(2, "Power", Some(1), "", false),
                          Category(3, "Drills", Some(2), "", true)], 1) == [1]
    ensures CategoryTree([Category(1, "Tools", None, "", false), Category(2, "Power", Some(1), "", true)], 1) == [1, 2]
  {
    var a := [Category(1, "Tools", None, "", true), Category(2, "Power", Some(1), "", false),
              Category(3, "Drills", Some(2), "", true)];
    assert 1 in Categories.Ids(a) by { assert a[0] in a; }
    assert Below(a, 0, 1, {1}) == [];
    var b := [Category(1, "Tools", None, "", false), Category(2, "Power", Some(1), "", true)];
    assert 1 in Categories.Ids(b) by { assert b[0] in b; }
    assert 2 in Categories.Ids(b) by { assert b[1] in b; }
    assert Child(b, 0, 2, {1} + {2}) == [] && Child(b, 1, 2, {1} + {2}) == [];
    assert Below(b, 2, 2, {1} + {2}) == [];
    assert Below(b, 0, 2, {1} + {2}) == [];
    assert Child(b, 1, 1, {1}) == [2];
    assert Below(b, 0, 1, {1}) == [2];
  }

  // ---------------------------------------------------------------------------------------
  // The counts

  /** The sum of the quantities of the given records. */
  ghost function SumOver(stocks: map<StockKey, StockRecord>, keys: set<StockKey>): int
    requires keys <= stocks.Keys
    decreases keys
  {
    if keys == {} then 0
    else if forall k :: k !in keys then assert false; 0
    else
      var k :| k in keys;
      stocks[k].quantity + SumOver(stocks, keys - {k})
  }

  /** The item's total over its stock records, 0 when it has none (the COALESCE of the query). */
  ghost function Total(stocks: map<StockKey, StockRecord>, itemId: int): int
  {
    SumOver(stocks, set k | k in stocks && k.itemId == itemId)
  }

  /** The items get_lowstock_count counts: active, in the tree, total above 0 and at most the item's threshold. */
  ghost function LowStockItems(cats: seq<Category>, items: map<int, Item>, stocks: map<StockKey, StockRecord>, catId: int)
    : (low: set<int>)
    ensures forall id :: id in low <==>
              && id in items && items[id].active && items[id].categoryId in CategoryTree(cats, catId)
              && 0 < Total(stocks, id) <= items[id].reorderThreshold
  {
    set id | id in items && items[id].active && items[id].categoryId in CategoryTree(cats, catId)
                         && 0 < Total(stocks, id) <= items[id].reorderThreshold
  }

  /** The items get_zerostock_count counts: active, in the tree, total 0; none of them is counted as low. */
  ghost function ZeroStockItems(cats: seq<Category>, items: map<int, Item>, stocks: map<StockKey, StockRecord>, catId: int)
    : (zero: set<int>)
    ensures forall id :: id in zero <==>
              id in items && items[id].active && items[id].categoryId in CategoryTree(cats, catId) && Total(stocks, id) == 0
    ensures zero * LowStockItems(cats, items, stocks, catId) == {}
  {
    set id | id in items && items[id].active && items[id].categoryId in CategoryTree(cats, catId) && Total(stocks, id) == 0
  }

  ghost function LowStockCount(cats: seq<Category>, items: map<int, Item>, stocks: map<StockKey, StockRecord>, catId: int): nat
  {
    |LowStockItems(cats, items, stocks, catId)|
  }

  ghost function ZeroStockCount(cats: seq<Category>, items: map<int, Item>, stocks: map<StockKey, StockRecord>, catId: int): nat
  {
    |ZeroStockItems(cats, items, stocks, catId)|
  }

  /** Together the two counts never exceed the number of active items in the tree. */
  lemma CountsBounded(cats: seq<Category>, items: map<int, Item>, stocks: map<StockKey, StockRecord>, catId: int)
    ensures LowStockCount(cats, items, stocks, catId) + ZeroStockCount(cats, items, stocks, catId) <=
            |set id | id in items && items[id].active && items[id].categoryId in CategoryTree(cats, catId)|
  {
    var low := LowStockItems(cats, items, stocks, catId);
    var zero := ZeroStockItems(cats, items, stocks, catId);
    var all := set id | id in items && items[id].active && items[id].categoryId in CategoryTree(cats, catId);
    assert low + zero <= all;
    assert |low + zero| == |low| + |zero|;
    SubsetSize(low + zero, all);
  }

  lemma {:induction false} SubsetSize(a: set<int>, b: set<int>)
    requires a <= b
    ensures |a| <= |b|
    decreases b
  {
    if a != {} {
      if forall x :: x !in a { assert false; }
      var x :| x in a;
      SubsetSize(a - {x}, b - {x});
    }
  }

  /** An item without any stock record has total 0, so an active one in the tree is counted as out of stock. */
  lemma NoRecordsIsZero(cats: seq<Category>, items: map<int, Item>, stocks: map<StockKey, StockRecord>, catId: int, id: int)
    requires id in items && items[id].active && items[id].categoryId in CategoryTree(cats, catId)
    requires forall k :: k in stocks ==> k.itemId != id
    ensures id in ZeroStockItems(cats, items, stocks, catId)
  {
    assert (set k | k in stocks && k.itemId == id) == {};
  }

  lemma SingleRecordTotal(stocks: map<StockKey, StockRecord>, k: StockKey)
    requires stocks.Keys == {k}
    ensures Total(stocks, k.itemId) == stocks[k].quantity
  {
    assert (set x | x in stocks && x.itemId == k.itemId) == {k};
    SumSingle(stocks, k);
  }

  lemma SumSingle(stocks: map<StockKey, StockRecord>, k: StockKey)
    requires k in stocks
    ensures SumOver(stocks, {k}) == stocks[k].quantity
  {
    var ks := {k};
    assert k in ks && ks - {k} == {};
  }

  /**
   * The dashboard's low rule is not the inventory page's: with one location holding 5 below its
   * threshold of 10, the page says Low Stock but an item threshold of 0 keeps the item out of
   * the low count; with 5 held, thresholds of 5 count the item as low while the page says Ok.
   */
  lemma LowRulesDiffer(cats: seq<Category>, catId: int, it: Item)
    requires it.active && it.categoryId in CategoryTree(cats, catId)
    ensures var stocks := map[StockKey(1, 7) := StockRecord(5, 10, None)];
            && StockStatus.Classify(5, 0, None, [StockStatus.LocationStock("Shelf", 5, 10)]).status == StockStatus.LowStock
            && 1 !in LowStockItems(cats, map[1 := it.(reorderThreshold := 0)], stocks, catId)
    ensures var stocks := map[StockKey(1, 7) := StockRecord(5, 5, None)];
            && StockStatus.Classify(5, 5, None, [StockStatus.LocationStock("Shelf", 5, 5)]).status == StockStatus.OkStock
            && 1 in LowStockItems(cats, map[1 := it.(reorderThreshold := 5)], stocks, catId)
  {
    var s1 := map[StockKey(1, 7) := StockRecord(5, 10, None)];
    SingleRecordTotal(s1, StockKey(1, 7));
    var l1 := [StockStatus.LocationStock("Shelf", 5, 10)];
    assert StockStatus.LowAt(l1[0]);
    var s2 := map[StockKey(1, 7) := StockRecord(5, 5, None)];
    SingleRecordTotal(s2, StockKey(1, 7));
    var l2 := [StockStatus.LocationStock("Shelf", 5, 5)];
    assert !StockStatus.LowAt(l2[0]) && !StockStatus.EmptyAt(l2[0]);
  }
}
