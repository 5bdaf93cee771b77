/**
 * The inventory page: the category filter's descendant ids, the item add, edit and reactivate
 * handlers, the replacement of an item's stock records by the submitted location quantities,
 * and the "what changed" comparison that decides whether an edit is written to the history.
 *
 * Submitted location quantities and thresholds are PHP arrays keyed by location id, so they
 * are maps here; quantities are integers in hundredths.
 */
module Inventory {
  import opened Common
  import opened Schema
  import opened Categories

  // ---------------------------------------------------------------------------------------
  // getAllDescendantCategoryIds

  /**
   * The ids getAllDescendantCategoryIds collects below `key`, from index i of the category map
   * on: each category whose parent loosely equals `key` contributes its id and then, recursively,
   * its own descendants. `path` holds the ids being expanded (see Categories.Scan).
   */
  function DescScan(cats: seq<Category>, i: nat, key: Option<int>, path: set<int>): (ids: seq<int>)
    requires i <= |cats|
    decreases Ids(cats) - path, |cats| - i
  {
    if i == |cats| then []
    else DescBlock(cats, i, key, path) + DescScan(cats, i + 1, key, path)
  }

  function DescBlock(cats: seq<Category>, i: nat, key: Option<int>, path: set<int>): (ids: seq<int>)
    requires i < |cats|
    decreases Ids(cats) - path, |cats| - i, 0
  {
    var c := cats[i];
    if !LooseEq(c.parent, key) then []
    else if c.id in path then [c.id]
    else
      assert c.id in Ids(cats) - path;
      [c.id] + DescScan(cats, 0, Some(c.id), path + {c.id})
  }

  /** getAllDescendantCategoryIds($category_map, p): p itself, then every id found below it. */
  function DescendantIds(cats: seq<Category>, p: int): (ids: seq<int>)
    ensures |ids| >= 1 && ids[0] == p
  {
    [p] + DescScan(cats, 0, Some(p), {p})
  }

  /** The ids of the lines of an outline, in order. */
  function EntryIds(out: seq<Entry>): (ids: seq<int>)
    ensures |ids| == |out|
    ensures forall j :: 0 <= j < |out| ==> ids[j] == out[j].cat.id
  {
    if out == [] then [] else [out[0].cat.id] + EntryIds(out[1..])
  }

  lemma {:induction false} EntryIdsAppend(a: seq<Entry>, b: seq<Entry>)
    ensures EntryIds(a + b) == EntryIds(a) + EntryIds(b)
  {
  }

  /** The descendant ids are the ids of the category outline rooted at the same key, at any level. */
  lemma {:induction false} DescScanIsOutlineIds(cats: seq<Category>, i: nat, key: Option<int>, level: nat, path: set<int>)
    requires i <= |cats|
    ensures DescScan(cats, i, key, path) == EntryIds(Scan(cats, i, key, level, path))
    decreases Ids(cats) - path, |cats| - i
  {
    if i < |cats| {
      DescBlockIsOutlineIds(cats, i, key, level, path);
      DescScanIsOutlineIds(cats, i + 1, key, level, path);
      EntryIdsAppend(Block(cats, i, key, level, path), Scan(cats, i + 1, key, level, path));
    }
  }

  lemma {:induction false} DescBlockIsOutlineIds(cats: seq<Category>, i: nat, key: Option<int>, level: nat, path: set<int>)
    requires i < |cats|
    ensures DescBlock(cats, i, key, path) == EntryIds(Block(cats, i, key, level, path))
    decreases Ids(cats) - path, |cats| - i, 0
  {
    var c := cats[i];
    if LooseEq(c.parent, key) && c.id !in path {
      assert c.id in Ids(cats) - path;
      DescScanIsOutlineIds(cats, 0, Some(c.id), level + 1, path + {c.id});
      BlockUnfold(cats, i, key, level, path);
      EntryIdsAppend([Entry(c, level)], Scan(cats, 0, Some(c.id), level + 1, path + {c.id}));
    }
  }

  /** Everything after p in the result is a category of the map whose parent chain reaches p. */
  lemma DescendantsReachParent(cats: seq<Category>, p: int, j: int)
    requires 0 < j < |DescendantIds(cats, p)|
    ensures exists c :: c in cats && c.id == DescendantIds(cats, p)[j] &&
                        exists d: nat :: RootedAt(cats, c, Some(p), d)
  {
    var out := Scan(cats, 0, Some(p), 1, {p});
    DescScanIsOutlineIds(cats, 0, Some(p), 1, {p});
    var e := out[j - 1];
    assert DescendantIds(cats, p)[j] == e.cat.id by {
      assert DescendantIds(cats, p) == [p] + EntryIds(out);
    }
    ScanIsOutline(cats, 0, Some(p), 1, {p});
    RootedFromOutline(cats, out, Some(p), 1);
    var d: nat := e.level - 1;
    assert e.cat in cats && RootedAt(cats, e.cat, Some(p), d);
  }

  /**
   * On acyclic input (a rank on ids that grows from parent to child) every category whose parent
   * chain reaches p is in the result, so the category filter matches all items below p.
   */
  lemma DescendantsComplete(cats: seq<Category>, rank: int -> nat, p: int, c: Category, d: nat)
    requires Ranked(cats, rank)
    requires c in cats && RootedAt(cats, c, Some(p), d)
    ensures c.id in DescendantIds(cats, p)
  {
    ScanComplete(cats, Some(p), 1, {p}, rank, c, d);
    DescScanIsOutlineIds(cats, 0, Some(p), 1, {p});
    var out := Scan(cats, 0, Some(p), 1, {p});
    var j :| 0 <= j < |out| && out[j] == Entry(c, 1 + d);
    assert DescendantIds(cats, p)[j + 1] == c.id;
  }

  /**
   * On acyclic input the result lists no id twice: p first and only there, then each descendant
   * once. The category map is keyed by id, so its ids are distinct.
   */
  lemma DescendantsOnce(cats: seq<Category>, rank: int -> nat, p: int)
    requires Ranked(cats, rank) && DistinctIds(cats)
    ensures forall j, m :: 0 <= j < m < |DescendantIds(cats, p)| ==>
              DescendantIds(cats, p)[j] != DescendantIds(cats, p)[m]
  {
    var out := Scan(cats, 0, Some(p), 1, {p});
    DescScanIsOutlineIds(cats, 0, Some(p), 1, {p});
    ScanListedOnce(cats, rank, 0, Some(p), 1, {p});
    HeadNotBelow(cats, rank, p, 1, {p});
    ParentThenOnce(p, out);
  }

  /** p followed by the ids of lines that list no id twice and never p lists no id twice. */
  lemma ParentThenOnce(p: int, out: seq<Entry>)
    requires ListedOnce(out) && forall f :: f in out ==> f.cat.id != p
    ensures forall j, m :: 0 <= j < m < |[p] + EntryIds(out)| ==> ([p] + EntryIds(out))[j] != ([p] + EntryIds(out))[m]
  {
    var ids := [p] + EntryIds(out);
    forall j, m | 0 <= j < m < |ids|
      ensures ids[j] != ids[m]
    {
      assert ids[m] == out[m - 1].cat.id;
      if j > 0 {
        assert ids[j] == out[j - 1].cat.id;
      } else {
        assert out[m - 1] in out;
      }
    }
  }

  // ---------------------------------------------------------------------------------------
  // The item form

  /** The item form's fields as posted (before trimming); `active` is whether the box was ticked. */
  datatype ItemForm = ItemForm(
    name: string, description: string, categoryId: int, sku: string, unitCost: int,
    reorderThreshold: int, fullQuantity: int, supplierInfo: string, partNumber: string, active: bool)

  /** The row the form writes: text fields trimmed, with the given creator and last editor. */
  function FormItem(f: ItemForm, createdBy: int, updatedBy: int): (it: Item)
    ensures it.name == Trim(f.name) && it.categoryId == f.categoryId && it.active == f.active
    ensures it.createdBy == createdBy && it.updatedBy == updatedBy
  {
    Item(Trim(f.name), Trim(f.description), f.categoryId, Trim(f.sku), f.unitCost, f.reorderThreshold,
         f.fullQuantity, Trim(f.supplierInfo), Trim(f.partNumber), f.active, createdBy, updatedBy)
  }

  /** Add and edit refuse a blank name ("" or "0" after trimming) or category id 0. */
  predicate FormAccepted(f: ItemForm)
  {
    Truthy(Trim(f.name)) && f.categoryId != 0
  }

  const RequiredMessage := "Name and category are required."

  /** A name of blanks only is refused, whatever the category. */
  lemma BlankNameRefused(f: ItemForm)
    requires forall k :: 0 <= k < |f.name| ==> IsTrimmed(f.name[k])
    ensures !FormAccepted(f)
  {
  }

  // ---------------------------------------------------------------------------------------
  // Stock replacement

  /** `(int)($thresholds[$loc] ?? 0)`. */
  function ThresholdFor(thresholds: map<int, int>, loc: int): int
  {
    if loc in thresholds then thresholds[loc] else 0
  }

  /** A submitted location gets a stock record only when its quantity or its threshold is positive. */
  predicate Kept(q: int, t: int)
  {
    q > 0 || t > 0
  }

  /** The levels the insert loop writes, by location, for these submitted quantities and thresholds. */
  function Submitted(quantities: map<int, int>, thresholds: map<int, int>): (recs: map<int, Level>)
    ensures forall loc :: loc in recs <==> loc in quantities && Kept(quantities[loc], ThresholdFor(thresholds, loc))
    ensures forall loc :: loc in recs ==> recs[loc] == Level(quantities[loc], ThresholdFor(thresholds, loc))
  {
    map loc | loc in quantities && Kept(quantities[loc], ThresholdFor(thresholds, loc)) ::
      Level(quantities[loc], ThresholdFor(thresholds, loc))
  }

  /** The stock records of `itemId` holding these levels; a new record has no adjustment stamp. */
  function Placed(itemId: int, recs: map<int, Level>): (m: map<StockKey, StockRecord>)
    ensures forall k :: k in m <==> k.itemId == itemId && k.locationId in recs
    ensures forall k :: k in m ==> m[k] == StockRecord(recs[k.locationId].quantity, recs[k.locationId].threshold, None)
  {
    map loc | loc in recs :: StockKey(itemId, loc) := StockRecord(recs[loc].quantity, recs[loc].threshold, None)
  }

  /** `DELETE FROM item_stocks WHERE item_id = :item_id`. */
  function WithoutItem(stocks: map<StockKey, StockRecord>, itemId: int): (m: map<StockKey, StockRecord>)
    ensures forall k :: k in m <==> k in stocks && k.itemId != itemId
    ensures forall k :: k in m ==> m[k] == stocks[k]
  {
    map k | k in stocks && k.itemId != itemId :: stocks[k]
  }

  /**
   * The stock table after an edit that submitted location quantities: the item has a record at
   * exactly the submitted locations with a positive quantity or threshold, holding the submitted
   * values, and every other item's records are as they were.
   */
  function Replaced(stocks: map<StockKey, StockRecord>, itemId: int, quantities: map<int, int>, thresholds: map<int, int>)
    : (m: map<StockKey, StockRecord>)
    ensures forall loc :: StockKey(itemId, loc) in m <==> loc in quantities && Kept(quantities[loc], ThresholdFor(thresholds, loc))
    ensures forall loc :: StockKey(itemId, loc) in m ==>
              m[StockKey(itemId, loc)] == StockRecord(quantities[loc], ThresholdFor(thresholds, loc), None)
    ensures forall k: StockKey :: k.itemId != itemId ==> (k in m <==> k in stocks) && (k in m ==> m[k] == stocks[k])
  {
    WithoutItem(stocks, itemId) + Placed(itemId, Submitted(quantities, thresholds))
  }

  /**
   * The insert loop of add and edit: for each submitted location, insert a record of the item
   * when its quantity or threshold is positive. The item has no records when it starts.
   */
  method InsertStocks(db: Database, itemId: int, quantities: map<int, int>, thresholds: map<int, int>)
    requires forall k :: k in db.stocks ==> k.itemId != itemId
    modifies db`stocks
    ensures db.stocks == old(db.stocks) + Placed(itemId, Submitted(quantities, thresholds))
  {
    var todo := quantities.Keys;
    while todo != {}
      invariant todo <= quantities.Keys
      invariant forall k :: k in db.stocks <==>
                  || k in old(db.stocks)
                  || (k.itemId == itemId && k.locationId in quantities && k.locationId !in todo &&
                      Kept(quantities[k.locationId], ThresholdFor(thresholds, k.locationId)))
      invariant forall k :: k in old(db.stocks) ==> db.stocks[k] == old(db.stocks)[k]
      invariant forall k :: k in db.stocks && k.itemId == itemId ==>
                  db.stocks[k] == StockRecord(quantities[k.locationId], ThresholdFor(thresholds, k.locationId), None)
      decreases |todo|
    {
      if forall x :: x !in todo {
        assert false;
      }
      var loc :| loc in todo;
      var q := quantities[loc];
      var t := ThresholdFor(thresholds, loc);
      if q > 0 || t > 0 {
        db.stocks := db.stocks[StockKey(itemId, loc) := StockRecord(q, t, None)];
      }
      todo := todo - {loc};
    }
    ghost var placed := Placed(itemId, Submitted(quantities, thresholds));
    assert forall k :: k in db.stocks <==> k in old(db.stocks) + placed;
    assert forall k :: k in db.stocks ==> db.stocks[k] == (old(db.stocks) + placed)[k];
  }

  // ---------------------------------------------------------------------------------------
  // The edit's change list

  /** `(float)($quantities[$loc] ?? 0)`. */
  function QuantityFor(quantities: map<int, int>, loc: int): int
  {
    if loc in quantities then quantities[loc] else 0
  }

  /** The locations of an item's stock records. */
  function LocationsOf(stocks: map<StockKey, StockRecord>, itemId: int): (locs: set<int>)
    ensures forall loc :: loc in locs <==> StockKey(itemId, loc) in stocks
  {
    set k | k in stocks && k.itemId == itemId :: k.locationId
  }

  /** The quantity and threshold of each of the item's records, as the edit reads them before writing. */
  function OriginalLevels(stocks: map<StockKey, StockRecord>, itemId: int): (levels: map<int, Level>)
    ensures forall loc :: loc in levels <==> StockKey(itemId, loc) in stocks
    ensures forall loc :: loc in levels ==>
              levels[loc] == Level(stocks[StockKey(itemId, loc)].quantity, stocks[StockKey(itemId, loc)].threshold)
  {
    map loc | loc in LocationsOf(stocks, itemId) ::
      Level(stocks[StockKey(itemId, loc)].quantity, stocks[StockKey(itemId, loc)].threshold)
  }

  /** What the form submits for a location, a missing entry read as 0. */
  function SubmittedLevel(quantities: map<int, int>, thresholds: map<int, int>, loc: int): Level
  {
    Level(QuantityFor(quantities, loc), ThresholdFor(thresholds, loc))
  }

  /**
   * The stock part of the change list: a location that had a record and whose submitted level
   * (missing read as 0) differs, from its old level; and a location without a record that is
   * submitted with a positive quantity or threshold, from level 0/0.
   */
  function StockChanges(orig: map<int, Level>, quantities: map<int, int>, thresholds: map<int, int>)
    : (ch: map<int, StockChange>)
    ensures forall loc :: loc in ch <==>
              || (loc in orig && orig[loc] != SubmittedLevel(quantities, thresholds, loc))
              || (loc !in orig && loc in quantities && Kept(quantities[loc], ThresholdFor(thresholds, loc)))
    ensures forall loc :: loc in ch && loc in orig ==>
              ch[loc] == StockChange(orig[loc], SubmittedLevel(quantities, thresholds, loc))
    ensures forall loc :: loc in ch && loc !in orig ==>
              ch[loc] == StockChange(Level(0, 0), SubmittedLevel(quantities, thresholds, loc))
  {
    map loc | loc in orig.Keys + quantities.Keys &&
              (if loc in orig then orig[loc] != SubmittedLevel(quantities, thresholds, loc)
               else Kept(quantities[loc], ThresholdFor(thresholds, loc))) ::
      StockChange(if loc in orig then orig[loc] else Level(0, 0), SubmittedLevel(quantities, thresholds, loc))
  }

  /**
   * The two loops that build `$stock_changes`: first over the locations that had a record, then
   * over the submitted locations that had none.
   */
  method DiffStocks(orig: map<int, Level>, quantities: map<int, int>, thresholds: map<int, int>)
    returns (ch: map<int, StockChange>)
    ensures ch == StockChanges(orig, quantities, thresholds)
  {
    ch := map[];
    var todo := orig.Keys;
    while todo != {}
      invariant todo <= orig.Keys
      invariant forall loc :: loc in ch <==>
                  loc in orig && loc !in todo && orig[loc] != SubmittedLevel(quantities, thresholds, loc)
      invariant forall loc :: loc in ch ==> ch[loc] == StockChange(orig[loc], SubmittedLevel(quantities, thresholds, loc))
      decreases |todo|
    {
      if forall x :: x !in todo {
        assert false;
      }
      var loc :| loc in todo;
      var now := SubmittedLevel(quantities, thresholds, loc);
      if orig[loc] != now {
        ch := ch[loc := StockChange(orig[loc], now)];
      }
      todo := todo - {loc};
    }
    todo := quantities.Keys;
    while todo != {}
      invariant todo <= quantities.Keys
      invariant forall loc :: loc in ch <==>
                  || (loc in orig && orig[loc] != SubmittedLevel(quantities, thresholds, loc))
                  || (loc !in orig && loc in quantities && loc !in todo && Kept(quantities[loc], ThresholdFor(thresholds, loc)))
      invariant forall loc :: loc in ch && loc in orig ==> ch[loc] == StockChange(orig[loc], SubmittedLevel(quantities, thresholds, loc))
      invariant forall loc :: loc in ch && loc !in orig ==> ch[loc] == StockChange(Level(0, 0), SubmittedLevel(quantities, thresholds, loc))
      decreases |todo|
    {
      if forall x :: x !in todo {
        assert false;
      }
      var loc :| loc in todo;
      var q := quantities[loc];
      var t := ThresholdFor(thresholds, loc);
      if loc !in orig && (q > 0 || t > 0) {
        ch := ch[loc := StockChange(Level(0, 0), Level(q, t))];
      }
      todo := todo - {loc};
    }
    StockChangesUnique(ch, orig, quantities, thresholds);
  }

  /** A map with the keys and values StockChanges promises is StockChanges. */
  lemma StockChangesUnique(ch: map<int, StockChange>, orig: map<int, Level>, quantities: map<int, int>, thresholds: map<int, int>)
    requires forall loc :: loc in ch <==>
               || (loc in orig && orig[loc] != SubmittedLevel(quantities, thresholds, loc))
               || (loc !in orig && loc in quantities && Kept(quantities[loc], ThresholdFor(thresholds, loc)))
    requires forall loc :: loc in ch && loc in orig ==> ch[loc] == StockChange(orig[loc], SubmittedLevel(quantities, thresholds, loc))
    requires forall loc :: loc in ch && loc !in orig ==> ch[loc] == StockChange(Level(0, 0), SubmittedLevel(quantities, thresholds, loc))
    ensures ch == StockChanges(orig, quantities, thresholds)
  {
    var spec := StockChanges(orig, quantities, thresholds);
    assert forall loc :: loc in ch <==> loc in spec;
    assert forall loc :: loc in ch ==> ch[loc] == spec[loc];
  }

  /**
   * When every stored record of the item holds a positive quantity or threshold (as the form
   * writes them) and the form submits a quantity for each of them, an edit reports no stock
   * change exactly when the levels it writes are the levels that were there.
   */
  lemma NoStockChangeIffSameLevels(orig: map<int, Level>, quantities: map<int, int>, thresholds: map<int, int>)
    requires forall loc :: loc in orig ==> Kept(orig[loc].quantity, orig[loc].threshold) && loc in quantities
    ensures StockChanges(orig, quantities, thresholds) == map[] <==> Submitted(quantities, thresholds) == orig
  {
    var ch := StockChanges(orig, quantities, thresholds);
    var sub := Submitted(quantities, thresholds);
    if ch == map[] {
      forall loc | loc in orig
        ensures loc in sub && sub[loc] == orig[loc]
      {
        assert loc !in ch;
      }
      forall loc | loc in sub
        ensures loc in orig
      {
        assert loc !in ch;
      }
      assert sub == orig;
    } else {
      var loc :| loc in ch;
      if sub == orig {
        assert false;
      }
    }
  }

  /** The levels an item has after a replacement are the ones the form submitted. */
  lemma LevelsAfterReplacement(stocks: map<StockKey, StockRecord>, itemId: int, quantities: map<int, int>, thresholds: map<int, int>)
    ensures OriginalLevels(Replaced(stocks, itemId, quantities, thresholds), itemId) == Submitted(quantities, thresholds)
  {
    var after := OriginalLevels(Replaced(stocks, itemId, quantities, thresholds), itemId);
    var sub := Submitted(quantities, thresholds);
    assert forall loc :: loc in after <==> loc in sub;
    assert after == sub;
  }

  /** The two rows agree on every column the form writes (all but creator and last editor). */
  predicate SameFormColumns(a: Item, b: Item)
  {
    a.(createdBy := 0, updatedBy := 0) == b.(createdBy := 0, updatedBy := 0)
  }

  /** The columns the edit handler compares, in the order it compares them. */
  const FormColumns: seq<string> := ["name", "description", "category_id", "sku", "unit_cost",
    "reorder_threshold", "full_quantity", "supplier_info", "part_number", "is_active"]

  /**
   * The stored and the written row differ in this column under PHP's loose `!=`: text columns by
   * LooseStrEq (so "0012" and "12" do not differ), the numeric and flag columns by value.
   */
  predicate Differs(a: Item, b: Item, column: string)
  {
    if column == "name" then !LooseStrEq(a.name, b.name)
    else if column == "description" then !LooseStrEq(a.description, b.description)
    else if column == "category_id" then a.categoryId != b.categoryId
    else if column == "sku" then !LooseStrEq(a.sku, b.sku)
    else if column == "unit_cost" then a.unitCost != b.unitCost
    else if column == "reorder_threshold" then a.reorderThreshold != b.reorderThreshold
    else if column == "full_quantity" then a.fullQuantity != b.fullQuantity
    else if column == "supplier_info" then !LooseStrEq(a.supplierInfo, b.supplierInfo)
    else if column == "part_number" then !LooseStrEq(a.partNumber, b.partNumber)
    else if column == "is_active" then a.active != b.active
    else false
  }

  /** The columns among `columns`, in their order, that differ between the two rows. */
  function ChangedAmong(a: Item, b: Item, columns: seq<string>): (cols: seq<FieldChange>)
    ensures |cols| <= |columns|
    ensures forall c :: FieldChange(c) in cols <==> c in columns && Differs(a, b, c)
  {
    if columns == [] then []
    else
      (if Differs(a, b, columns[0]) then [FieldChange(columns[0])] else []) + ChangedAmong(a, b, columns[1..])
  }

  /**
   * The item part of the change list: the form's columns, in form order, whose stored value
   * differs from the written one (`id` and `updated_by` are skipped).
   */
  function ChangedColumns(before: Item, after: Item): (cols: seq<FieldChange>)
    ensures |cols| <= |FormColumns|
    ensures forall c :: FieldChange(c) in cols <==> c in FormColumns && Differs(before, after, c)
  {
    ChangedAmong(before, after, FormColumns)
  }

  /** The two rows agree on every form column as PHP's loose `==` compares them: text by LooseStrEq, numbers and the flag by value. */
  predicate LooselySame(a: Item, b: Item)
  {
    LooseStrEq(a.name, b.name) && LooseStrEq(a.description, b.description) && a.categoryId == b.categoryId &&
    LooseStrEq(a.sku, b.sku) && a.unitCost == b.unitCost && a.reorderThreshold == b.reorderThreshold &&
    a.fullQuantity == b.fullQuantity && LooseStrEq(a.supplierInfo, b.supplierInfo) &&
    LooseStrEq(a.partNumber, b.partNumber) && a.active == b.active
  }

  /**
   * The change list names no column exactly when the two rows loosely agree on every form
   * column; rows that agree exactly are one such case, and `updated_by` is never listed.
   */
  lemma NoChangedColumnsIffSame(before: Item, after: Item)
    ensures ChangedColumns(before, after) == [] <==> LooselySame(before, after)
    ensures SameFormColumns(before, after) ==> ChangedColumns(before, after) == []
    ensures FieldChange("updated_by") !in ChangedColumns(before, after)
  {
    if ChangedColumns(before, after) == [] {
      UnchangedLooselySame(before, after);
    }
    if LooselySame(before, after) {
      LooselySameUnchanged(before, after);
    }
    if SameFormColumns(before, after) {
      SameIsLooselySame(before, after);
      LooselySameUnchanged(before, after);
    }
  }

  lemma UnchangedLooselySame(before: Item, after: Item)
    requires ChangedColumns(before, after) == []
    ensures LooselySame(before, after)
  {
    assert !Differs(before, after, FormColumns[0]) && !Differs(before, after, FormColumns[1]);
    assert !Differs(before, after, FormColumns[2]) && !Differs(before, after, FormColumns[3]);
    assert !Differs(before, after, FormColumns[4]) && !Differs(before, after, FormColumns[5]);
    assert !Differs(before, after, FormColumns[6]) && !Differs(before, after, FormColumns[7]);
    assert !Differs(before, after, FormColumns[8]) && !Differs(before, after, FormColumns[9]);
  }

  lemma LooselySameUnchanged(before: Item, after: Item)
    requires LooselySame(before, after)
    ensures ChangedColumns(before, after) == []
  {
    forall c | c in FormColumns
      ensures !Differs(before, after, c)
    {
    }
    NoneDiffer(before, after, FormColumns);
  }

  /** A column list none of whose columns differ yields an empty change list. */
  lemma {:induction false} NoneDiffer(a: Item, b: Item, columns: seq<string>)
    requires forall c :: c in columns ==> !Differs(a, b, c)
    ensures ChangedAmong(a, b, columns) == []
  {
    if columns != [] {
      NoneDiffer(a, b, columns[1..]);
    }
  }

  lemma SameIsLooselySame(before: Item, after: Item)
    requires SameFormColumns(before, after)
    ensures LooselySame(before, after)
  {
    LooseStrEqBasics(before.name, after.name);
    LooseStrEqBasics(before.description, after.description);
    LooseStrEqBasics(before.sku, after.sku);
    LooseStrEqBasics(before.supplierInfo, after.supplierInfo);
    LooseStrEqBasics(before.partNumber, after.partNumber);
  }

  /**
   * Rewriting a part number without its leading zeros ("0012" to "12") changes the stored text.
   * The edit lists no column, and with no stock change writes no history row, exactly when the
   * number fits a 64-bit integer; past 2^63 PHP compares the text and lists part_number alone.
   */
  lemma RenumberedPartNotLogged(before: Item, zeros: string, digits: string, itemId: int, user: int)
    requires forall k :: 0 <= k < |zeros| ==> zeros[k] == '0'
    requires digits != [] && AllDigits(digits)
    requires before.partNumber == zeros + digits
    ensures zeros != [] ==> before.(partNumber := digits, updatedBy := user).partNumber != before.partNumber
    ensures forall c :: FieldChange(c) in ChangedColumns(before, before.(partNumber := digits, updatedBy := user)) <==>
              c == "part_number" && zeros != [] && DigitsValue(digits) >= LongLimit
    ensures ChangedColumns(before, before.(partNumber := digits, updatedBy := user)) == [] <==>
              zeros == [] || DigitsValue(digits) < LongLimit
    ensures EditEntries(itemId, user, ChangedColumns(before, before.(partNumber := digits, updatedBy := user)), map[]) == [] <==>
              zeros == [] || DigitsValue(digits) < LongLimit
  {
    LeadingZerosLooselyEqual(zeros, digits);
    PartNumberEdit(before, digits, user);
    if zeros != [] {
      assert |zeros + digits| > |digits|;
    }
  }

  /**
   * A row rewritten with another part number and editor lists part_number alone when the two part
   * numbers are not loosely equal, and nothing when they are.
   */
  lemma PartNumberEdit(before: Item, part: string, user: int)
    ensures forall c :: FieldChange(c) in ChangedColumns(before, before.(partNumber := part, updatedBy := user)) <==>
              c == "part_number" && !LooseStrEq(before.partNumber, part)
    ensures ChangedColumns(before, before.(partNumber := part, updatedBy := user)) == [] <==>
              LooseStrEq(before.partNumber, part)
  {
    var after := before.(partNumber := part, updatedBy := user);
    OnlyPartNumberDiffers(before, part, user);
    var cols := ChangedColumns(before, after);
    if cols != [] {
      assert FieldChange(cols[0].column) in cols;
    }
    if !LooseStrEq(before.partNumber, part) {
      assert FieldChange("part_number") in cols;
    }
  }

  /** A row rewritten with another part number and editor differs, among the form columns, at most in part_number. */
  lemma OnlyPartNumberDiffers(before: Item, part: string, user: int)
    ensures forall c :: c in FormColumns ==>
              (Differs(before, before.(partNumber := part, updatedBy := user), c) <==>
               c == "part_number" && !LooseStrEq(before.partNumber, part))
  {
    LooseStrEqBasics(before.name, before.name);
    LooseStrEqBasics(before.description, before.description);
    LooseStrEqBasics(before.sku, before.sku);
    LooseStrEqBasics(before.supplierInfo, before.supplierInfo);
  }

  /** The history rows an edit writes: one 'update' row when anything changed, none otherwise. */
  function EditEntries(itemId: int, user: int, cols: seq<FieldChange>, stock: map<int, StockChange>): (h: seq<HistoryEntry>)
    ensures h == [] <==> cols == [] && stock == map[]
    ensures |h| <= 1
    ensures h != [] ==> ActionType(h[0].action) == "update" && h[0].itemId == itemId && h[0].performedBy == user
  {
    if cols == [] && stock == map[] then [] else [HistoryEntry(itemId, user, ItemUpdated(cols, stock))]
  }

  function ValueOr(m: Option<map<int, int>>): map<int, int>
  {
    if m.Some? then m.value else map[]
  }

  // ---------------------------------------------------------------------------------------
  // The handlers

  /**
   * add_item: refused, with nothing written, for a blank name or category 0; otherwise the item
   * is inserted under the fresh id, a stock record is inserted for each submitted location with a
   * positive quantity or threshold, and one 'create' history row is appended.
   */
  method AddItem(db: Database, newId: int, f: ItemForm, quantities: Option<map<int, int>>,
                 thresholds: map<int, int>, user: int)
    returns (r: Outcome)
    requires newId !in db.items && forall k :: k in db.stocks ==> k.itemId != newId
    modifies db`items, db`stocks, db`history
    ensures !FormAccepted(f) ==>
              r == Failed(RequiredMessage) &&
              db.items == old(db.items) && db.stocks == old(db.stocks) && db.history == old(db.history)
    ensures FormAccepted(f) ==>
              && r == Done
              && db.items == old(db.items)[newId := FormItem(f, user, user)]
              && db.stocks == old(db.stocks) + Placed(newId, Submitted(ValueOr(quantities), thresholds))
              && db.history == old(db.history) +
                   [HistoryEntry(newId, user, ItemCreated(FormItem(f, user, user), ValueOr(quantities), thresholds))]
  {
    if !FormAccepted(f) {
      return Failed(RequiredMessage);
    }
    var item := FormItem(f, user, user);
    db.items := db.items[newId := item];
    if quantities.Some? {
      InsertStocks(db, newId, quantities.value, thresholds);
    } else {
      assert Submitted(map[], thresholds) == map[];
      assert Placed(newId, map[]) == map[];
      assert db.stocks + map[] == db.stocks;
    }
    db.history := db.history + [HistoryEntry(newId, user, ItemCreated(item, ValueOr(quantities), thresholds))];
    r := Done;
  }

  /** The delete-then-insert of an edit that submitted location quantities. */
  method ReplaceStocks(db: Database, itemId: int, quantities: map<int, int>, thresholds: map<int, int>)
    modifies db`stocks
    ensures db.stocks == Replaced(old(db.stocks), itemId, quantities, thresholds)
  {
    db.stocks := WithoutItem(db.stocks, itemId);
    InsertStocks(db, itemId, quantities, thresholds);
  }

  /** Appends the edit's history row when its change list is not empty. */
  method RecordEdit(db: Database, itemId: int, user: int, cols: seq<FieldChange>, stock: map<int, StockChange>)
    modifies db`history
    ensures db.history == old(db.history) + EditEntries(itemId, user, cols, stock)
  {
    if cols != [] || stock != map[] {
      db.history := db.history + [HistoryEntry(itemId, user, ItemUpdated(cols, stock))];
    } else {
      assert db.history + [] == db.history;
    }
  }

  /**
   * The writes of an accepted edit, in order: the row, then the stock records when location
   * quantities were submitted, then the history row when the change list is not empty.
   */
  method WriteEdit(db: Database, itemId: int, after: Item, quantities: Option<map<int, int>>,
                   thresholds: map<int, int>, user: int, cols: seq<FieldChange>, stock: map<int, StockChange>)
    modifies db`items, db`stocks, db`history
    ensures db.items == old(db.items)[itemId := after]
    ensures quantities.Some? ==> db.stocks == Replaced(old(db.stocks), itemId, quantities.value, thresholds)
    ensures quantities.None? ==> db.stocks == old(db.stocks)
    ensures db.history == old(db.history) + EditEntries(itemId, user, cols, stock)
  {
    db.items := db.items[itemId := after];
    if quantities.Some? {
      ReplaceStocks(db, itemId, quantities.value, thresholds);
    }
    RecordEdit(db, itemId, user, cols, stock);
  }

  /** The row an edit writes: the form's columns, the original creator, this editor. */
  function Edited(before: Item, f: ItemForm, user: int): (after: Item)
    ensures after.createdBy == before.createdBy && after.updatedBy == user
  {
    FormItem(f, before.createdBy, user)
  }

  /**
   * edit_item: refused, with nothing written, for item id 0, a missing item, a blank name or
   * category 0. Otherwise the row is rewritten; when location quantities were submitted the
   * item's stock records are deleted and the filtered submission inserted, and otherwise they
   * are left alone; one 'update' history row is appended when a column (compared loosely, see
   * Differs) or a stock level changed, comparing the records read before the write with the
   * submission (missing read as 0).
   */
  method EditItem(db: Database, itemId: int, f: ItemForm, quantities: Option<map<int, int>>,
                  thresholds: map<int, int>, user: int)
    returns (r: Outcome)
    modifies db`items, db`stocks, db`history
    ensures itemId == 0 ==> r == Failed("Invalid item ID.")
    ensures itemId != 0 && itemId !in old(db.items) ==> r == Failed("Item not found.")
    ensures itemId != 0 && itemId in old(db.items) && !FormAccepted(f) ==> r == Failed(RequiredMessage)
    ensures r.Failed? ==> db.items == old(db.items) && db.stocks == old(db.stocks) && db.history == old(db.history)
    ensures itemId != 0 && itemId in old(db.items) && FormAccepted(f) ==> r == Done
    ensures r == Done ==> db.items == old(db.items)[itemId := Edited(old(db.items)[itemId], f, user)]
    ensures r == Done && quantities.Some? ==> db.stocks == Replaced(old(db.stocks), itemId, quantities.value, thresholds)
    ensures r == Done && quantities.None? ==> db.stocks == old(db.stocks)
    ensures r == Done ==>
              db.history == old(db.history) +
                EditEntries(itemId, user, ChangedColumns(old(db.items)[itemId], Edited(old(db.items)[itemId], f, user)),
                            StockChanges(OriginalLevels(old(db.stocks), itemId), ValueOr(quantities), thresholds))
  {
    if itemId == 0 {
      return Failed("Invalid item ID.");
    }
    if itemId !in db.items {
      return Failed("Item not found.");
    }
    var before := db.items[itemId];
    var orig := OriginalLevels(db.stocks, itemId);
    if !FormAccepted(f) {
      return Failed(RequiredMessage);
    }
    var after := Edited(before, f, user);
    var stock := DiffStocks(orig, ValueOr(quantities), thresholds);
    var cols := ChangedColumns(before, after);
    WriteEdit(db, itemId, after, quantities, thresholds, user, cols, stock);
    r := Done;
  }

  /**
   * reactivate_item: refused for item id 0; otherwise the item, if it exists, becomes active with
   * this editor, and an 'update' history row is appended whether or not a row was updated.
   */
  method ReactivateItem(db: Database, itemId: int, user: int) returns (r: Outcome)
    modifies db`items, db`history
    ensures itemId == 0 ==> r == Failed("Invalid item ID.") && db.items == old(db.items) && db.history == old(db.history)
    ensures itemId != 0 ==> r == Done && db.history == old(db.history) + [HistoryEntry(itemId, user, ItemReactivated)]
    ensures itemId != 0 && itemId in old(db.items) ==>
              db.items == old(db.items)[itemId := old(db.items)[itemId].(active := true, updatedBy := user)]
    ensures itemId !in old(db.items) ==> db.items == old(db.items)
  {
    if itemId == 0 {
      return Failed("Invalid item ID.");
    }
    if itemId in db.items {
      db.items := db.items[itemId := db.items[itemId].(active := true, updatedBy := user)];
    }
    db.history := db.history + [HistoryEntry(itemId, user, ItemReactivated)];
    r := Done;
  }

  /**
   * An edit that submits no location quantities leaves the records alone, yet lists every record
   * whose level is not 0/0 as changed to 0/0: here location 1 holding 5 with threshold 2.
   */
  lemma UnsubmittedEditListsStockAsCleared()
    ensures StockChanges(map[1 := Level(5, 2)], map[], map[]) == map[1 := StockChange(Level(5, 2), Level(0, 0))]
  {
    var ch := StockChanges(map[1 := Level(5, 2)], map[], map[]);
    assert SubmittedLevel(map[], map[], 1) == Level(0, 0);
    assert forall loc :: loc in ch <==> loc == 1;
  }

  /**
   * A record holding only a threshold (quantity 0, threshold 5), edited with its threshold but no
   * quantity submitted, is deleted, yet the edit lists no stock change.
   */
  lemma ThresholdOnlyRecordDroppedSilently()
    ensures Submitted(map[], map[1 := 5]) == map[]
    ensures StockChanges(map[1 := Level(0, 5)], map[], map[1 := 5]) == map[]
  {
    var ch := StockChanges(map[1 := Level(0, 5)], map[], map[1 := 5]);
    assert SubmittedLevel(map[], map[1 := 5], 1) == Level(0, 5);
    assert forall loc :: loc !in ch;
  }
}
