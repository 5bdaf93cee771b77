/**
 * The rows of the MySQL tables the pages read and write, and the database itself as one
 * object whose tables are maps keyed by primary key (item_history is an append-only sequence).
 * Quantities are integers in hundredths; timestamps are opaque integers supplied by the caller.
 */
module Schema {
  import opened Common

  type Timestamp = int

  /** A row of `categories`; `parent` is the nullable `parent_id`. */
  datatype Category = Category(id: int, name: string, parent: Option<int>, description: string, active: bool)

  /** A row of `sites`. */
  datatype Site = Site(name: string, address: string, description: string, active: bool)

  /** A row of `locations`; every location belongs to the site `siteId`. */
  datatype Location = Location(siteId: int, name: string, description: string, active: bool)

  /** The columns of `items` that the item form writes. */
  datatype Item = Item(
    name: string, description: string, categoryId: int, sku: string, unitCost: int,
    reorderThreshold: int, fullQuantity: int, supplierInfo: string, partNumber: string,
    active: bool, createdBy: int, updatedBy: int)

  /** `item_stocks` is keyed by the pair (item_id, location_id). */
  datatype StockKey = StockKey(itemId: int, locationId: int)

  /** A row of `item_stocks`. */
  datatype StockRecord = StockRecord(quantity: int, threshold: int, lastAdjustedAt: Option<Timestamp>)

  /** The quantity and reorder threshold of one location, the pair the item form edits. */
  datatype Level = Level(quantity: int, threshold: int)

  /** A row of `item_requests`. */
  datatype ItemRequest = ItemRequest(
    itemId: int, requestedBy: int, fromLocation: Option<int>, toLocation: Option<int>,
    quantityRequested: int, quantityApproved: Option<int>, priority: string, status: string,
    reason: string, neededBy: Option<string>, requestedAt: Timestamp,
    approvedBy: Option<int>, approvedDate: Option<Timestamp>,
    completedBy: Option<int>, completedDate: Option<Timestamp>, managerNotes: Option<string>)

  /** The request statuses `update_request_status` accepts. */
  const Statuses: seq<string> :=
    ["pending", "approved", "partially_approved", "rejected", "in_progress", "completed", "cancelled"]

  /** The request priorities both request handlers accept. */
  const Priorities: seq<string> := ["low", "normal", "high", "urgent"]

  /** One changed column of an item, by column name, as the edit handler records it. */
  datatype FieldChange = FieldChange(column: string)

  /** The quantity and threshold of one location before and after an item edit. */
  datatype StockChange = StockChange(before: Level, after: Level)

  /** The `details` payload of an `item_history` row, one variant per kind of mutation. */
  datatype HistoryAction =
    | ItemCreated(item: Item, quantities: map<int, int>, thresholds: map<int, int>)
    | ItemUpdated(fieldChanges: seq<FieldChange>, stockChanges: map<int, StockChange>)
    | ItemReactivated
    | StockAdjusted(locationId: int, oldQuantity: int, newQuantity: int, amount: int, reason: string)
    | ItemRequested(requestId: int, toLocation: int, quantity: int, priority: string, reason: string)
    | RequestStatusUpdated(requestId: int, oldStatus: string, newStatus: string,
                           quantityApproved: Option<int>, notes: string)

  /** A row of `item_history`. */
  datatype HistoryEntry = HistoryEntry(itemId: int, performedBy: int, action: HistoryAction)

  /** The `action_type` column written for each kind of history payload. */
  function ActionType(a: HistoryAction): (t: string)
    ensures t in {"create", "update", "stock_adjust", "assignment"}
    ensures t == "assignment" <==> a.ItemRequested? || a.RequestStatusUpdated?
  {
    match a
    case ItemCreated(_, _, _) => "create"
    case ItemUpdated(_, _) => "update"
    case ItemReactivated => "update"
    case StockAdjusted(_, _, _, _, _) => "stock_adjust"
    case ItemRequested(_, _, _, _, _) => "assignment"
    case RequestStatusUpdated(_, _, _, _, _) => "assignment"
  }

  /**
   * The database. Column defaults that the pages rely on without naming them are constants:
   * the status a new request gets, and the `is_active` a new category gets.
   */
  class Database {
    var categories: map<int, Category>
    var sites: map<int, Site>
    var locations: map<int, Location>
    var items: map<int, Item>
    var stocks: map<StockKey, StockRecord>
    var requests: map<int, ItemRequest>
    var history: seq<HistoryEntry>
    const requestStatusDefault: string
    const categoryActiveDefault: bool

    constructor (requestStatusDefault: string, categoryActiveDefault: bool)
      ensures this.requestStatusDefault == requestStatusDefault
      ensures this.categoryActiveDefault == categoryActiveDefault
      ensures categories == map[] && sites == map[] && locations == map[]
      ensures items == map[] && stocks == map[] && requests == map[] && history == []
    {
      this.requestStatusDefault := requestStatusDefault;
      this.categoryActiveDefault := categoryActiveDefault;
      categories, sites, locations := map[], map[], map[];
      items, stocks, requests, history := map[], map[], map[], [];
    }
  }
}
