# InvApp business rules in Dafny

InvApp is a server-rendered PHP inventory application. Items are stocked at locations, locations
belong to sites, items belong to a category tree, and every change to an item is appended to an
`item_history` table. This project models the rules the page scripts embed and proves properties
of them:

- the two stock-status classifiers;
- the stock ledger operations: adding and editing an item (which replaces its stock records and
  computes a "what changed" list), and correcting one location's count;
- the item request lifecycle: creating a request, and a manager moving it to a new status;
- the category outline and the descendant-id filter;
- site and location soft deletion, and grouping query rows by site;
- the two dashboard counts and their recursive category query;
- the session permission cache in front of the role lookup.

Layout, one module per file:

| file | module | what it holds |
|---|---|---|
| common.dfy | `Common` | `Option`, `Result`, `Outcome`, PHP truthiness and `trim`, `implode`, first-occurrence positions |
| schema.dfy | `Schema` | the table rows as datatypes, typed history payloads, the `Database` class (tables as maps, history as a sequence) |
| stock_status.dfy | `StockStatus` | both `getStockStatus` classifiers |
| categories.dfy | `Categories` | `buildCategoryTree`, the parent column, the category handlers |
| inventory.dfy | `Inventory` | `getAllDescendantCategoryIds`, item add / edit / reactivate, stock replacement, the edit change list |
| audit.dfy | `Audit` | `adjust_stock`, `request_item`, duplicate-item removal, the location picker |
| requests.dfy | `Requests` | `update_request_status`, the colour maps, the list order |
| locations.dfy | `Locations` | site and location (de)activation, the redirect message, grouping rows by site |
| dashboard.dfy | `Dashboard` | `get_lowstock_count`, `get_zerostock_count` |
| auth.dfy | `Auth` | `check_access` and the session's permission list |

Modelling choices:

- PHP handlers that write to the database are methods on one `Schema.Database` object, with
  `modifies` naming the tables they write. Each handler checks everything before its first
  write, so a refused call ends in `Failed(message)` with nothing changed. (On the inventory
  page the message is not shown in the end; see "Left out".)
- Loops that build arrays step by step are methods with loop invariants, proved equal to a
  specification function. Examples are the stock insert loop, the `$stock_changes` loops, the
  `$seen_ids` loop and the `$sites` loop.
- Quantities are integers, in hundredths of a unit. Timestamps are integers passed in by the
  caller.
- PHP's loose `==` between a nullable parent id and an id (null equals 0) is `Categories.LooseEq`.
  This assumes PDO hands integer columns back as PHP integers, as pdo_mysql does from PHP 8.1
  on with its default emulated prepares; includes/db_connect1.php:22-24 sets no attribute that
  changes this. Where columns come back as strings, `null == "0"` is false: a category stored
  with parent 0 is then not a root, and `Categories.PostedParentCases`' "00" case does not read
  as one.
- PHP 8's loose `!=` between two strings, used by the item edit's change list
  (pages/inventory/inventory.php:393), is `Common.LooseStrEq`. When both strings are numeric
  (surrounding whitespace, a sign, digits with at most one decimal point, an optional exponent)
  they compare as numbers, so "0012" equals "12" and "1e3" equals "1000". Any other pair compares
  character by character. A 64-bit build is assumed. PHP reads an integer-form string outside the
  64-bit range, or any number with twenty or more digits before its point, as an overflowed
  double. Two strings that overflow to the same side are compared as text, and so are two strings
  that are the same infinity as doubles (magnitude at least 2^1024 - 2^970). An overflowed number
  never equals an in-range integer-form string. Numbers are otherwise kept exact as digits times a
  power of ten.
- The source recurses over parent pointers without any cycle guard. The model expands a category
  only when its id is not already on the path being expanded. Completeness is proved for acyclic
  input, stated as a rank on ids that grows from parent to child (`Categories.Ranked`). On such
  input the guard never fires.
- SQL aggregates (`SUM`, `COUNT`) are ghost functions over the table maps.

## Model

| member | source | states |
|---|---|---|
| Common.LooseStrEqBasics | pages/inventory/inventory.php:393 | Equal strings are loosely equal; loose equality is symmetric; a string that is not numeric is loosely equal only to itself |
| Common.DigitStringValue | pages/inventory/inventory.php:393 | A non-empty string of digits is numeric, with the digits' value and exponent 0 |
| Common.LeadingZerosLooselyEqual | pages/inventory/inventory.php:393 | Digits with zeros in front are loosely equal to the digits alone iff there are no zeros or the value is below 2^63; past it both overflow and PHP compares the text |
| Common.IntegersLooselyEqual | pages/inventory/inventory.php:393 | Two integer-form strings without trailing whitespace are loosely equal iff, when both are at least 2^63, their texts are equal, and otherwise their values are equal |
| Common.ZeroBeforeExponentForm | pages/inventory/inventory.php:393 | "0" in front of digits-`e`-digits keeps the strings loosely equal iff the leading digits are fewer than twenty significant ones and the value stays below the double range |
| Common.ExponentForm | pages/inventory/inventory.php:393 | Digits, `e` and digits form a numeric string whose value is the first digits times ten to the second |
| Common.ExponentLooselyEqual | pages/inventory/inventory.php:393 | "1e3" and "1000" are loosely equal |
| Common.OneEThree | pages/inventory/inventory.php:393 | "1e3" reads as 1 times ten to the 3, not integer form |
| Common.OneThousand | pages/inventory/inventory.php:393 | "1000" reads as the integer 1000 |
| Common.TrailingTextNotNumeric | pages/inventory/inventory.php:393 | "12abc" is not numeric, so it is compared as text and differs from "12" |
| StockStatus.Classify | pages/inventory/inventory.php:115-152 | First match wins. Total 0 is No Stock (red) and nothing else is. Critical holds iff the total is non-zero and some location is empty; its details list exactly the empty locations in input order, joined with ", ". Low Stock holds iff the total is non-zero, no location is empty and some location is below a positive threshold. Over and Full Stock need a non-zero full quantity; Ok Stock is otherwise below target |
| StockStatus.ClassifyAt | pages/inventory/invAudit.php:256-264 | No Stock iff the quantity is 0; Low Stock iff the quantity is non-zero and below a positive threshold; otherwise Ok Stock. The colour follows the status |
| StockStatus.EmptyNames | pages/inventory/inventory.php:120-122 | The names of the zero-quantity locations: exactly those, and empty iff no location is empty |
| StockStatus.LowNames | pages/inventory/inventory.php:123-125 | The names of the locations below their positive threshold: exactly those, and empty iff none is |
| StockStatus.EmptyNamesAppend | pages/inventory/inventory.php:119-126 | The empty-location list of a concatenation is the concatenation of the lists, so input order is kept |
| StockStatus.LowNamesAppend | pages/inventory/inventory.php:119-126 | The same for the low-location list |
| StockStatus.ZeroThresholdNeverLow | pages/inventory/inventory.php:123 | Threshold 0 everywhere never yields Low Stock |
| StockStatus.ItemThresholdIgnored | pages/inventory/inventory.php:115 | The item-global reorder threshold argument never changes the verdict |
| StockStatus.EmptyLocationIsNoStockOrCritical | pages/inventory/inventory.php:129-137 | An empty location forces No Stock or Critical |
| StockStatus.SingleLocationAgreement | pages/inventory/invAudit.php:256-264 | With one location and no target, the two classifiers agree; with a target equal to the quantity they differ (Full Stock vs Ok Stock) |
| StockStatus.CriticalScenario | pages/inventory/inventory.php:134-137 | An empty location next to a stocked one is Critical, naming only the empty one |
| StockStatus.LowScenario | pages/inventory/inventory.php:140-143 | 2 of threshold 5 with a target of 10 is Low Stock |
| Categories.LooseEqParentKey | pages/categories/categories.php:127 | A loose parent comparison is equality of the parent id read with null as 0 |
| Categories.Scan | pages/categories/categories.php:124-135 | Every emitted line is an input category at or below the level; lines at the level have a parent loosely equal to the key |
| Categories.Block | pages/categories/categories.php:126-133 | A category contributes lines iff its parent loosely equals the key, and then its own line comes first |
| Categories.TreeIsOutline | pages/categories/categories.php:124-135 | The outline is pre-order: roots at level 0, every deeper line directly under the nearest shallower line before it, one level deeper, and that line is its parent |
| Categories.TreeEntriesAreRooted | pages/categories/categories.php:124-135 | Every shown category has its whole parent chain in the input, ending at a root, and its level is the chain's length |
| Categories.OrphanNeverShown | pages/categories/categories.php:127 | A category whose non-zero parent id is missing from the input is never shown |
| Categories.SiblingsInInputOrder | pages/categories/categories.php:126-131 | The lines at a scan's own level are exactly the children of the key, in input order |
| Categories.RootsInInputOrder | pages/categories/categories.php:124-131 | The level-0 lines are the null- or 0-parent categories, in input order |
| Categories.TreeComplete | pages/categories/categories.php:124-135 | On acyclic input, every category with a chain to a root is shown, at the chain's length |
| Categories.ScanListedOnce | pages/categories/categories.php:124-135 | On acyclic input with distinct ids, no category is on two lines of a scan's output |
| Categories.TreeShowsOnce | pages/categories/categories.php:124-135 | On acyclic input with distinct ids, every category with a chain to a root is on exactly one line of the outline, at the chain's length |
| Categories.ExampleTree | pages/categories/categories.php:124-135 | The hierarchy 1; 2, 3 under 1; 4 under 2 is outlined as 1, 2, 4, 3 at levels 0, 1, 2, 1 |
| Categories.FirstNameWithId | pages/categories/categories.php:266-271 | None iff no loaded category has the id; otherwise the name of the first one that does |
| Categories.ParentLabel | pages/categories/categories.php:263-275 | An em dash for a null or 0 parent, "Unknown" when no loaded category has the parent id, otherwise the first such category's name |
| Categories.PostedParent | pages/categories/categories.php:27 | The posted parent_id is null iff it is falsy ("" or "0"); otherwise it is its integer cast (the edit handler's line 49 is the same) |
| Categories.PostedParentCases | pages/categories/categories.php:49 | "" and "0" are stored as null whatever the cast; "00" is stored as parent 0, which still reads as a root |
| Categories.AddCategory | pages/categories/categories.php:23-42 | Inserts the row under the new id with the trimmed name and description, the table's default active flag, and a null parent iff the posted parent_id is falsy, its cast otherwise |
| Categories.EditCategory | pages/categories/categories.php:44-70 | A parsed parent loosely equal to the category's own id is refused and nothing is written: a falsy parent_id is refused iff the id is 0, any other iff its cast is the id. Otherwise an existing row gets the trimmed name and description and the parsed parent |
| Categories.Deactivated | pages/categories/categories.php:77-84 | Exactly the category and the rows whose parent is it become inactive; every other row is unchanged |
| Categories.DeactivateCategory | pages/categories/categories.php:72-90 | The table becomes `Deactivated` of the old one |
| Categories.ReactivateCategory | pages/categories/categories.php:92-105 | Only the named category becomes active |
| Categories.DeactivationIsOneLevel | pages/categories/categories.php:82-84 | A grandchild, or any row that is neither the category nor its child, keeps its flag |
| Categories.DeactivationExample | pages/categories/categories.php:72-90 | Deactivating 1 in the example hierarchy leaves 4 (a grandchild) active |
| Inventory.DescendantIds | pages/inventory/inventory.php:156-166 | The result starts with the parent id itself |
| Inventory.DescScanIsOutlineIds | pages/inventory/inventory.php:156-166 | The descendant ids are the ids of the category outline under the same key, in the same order |
| Inventory.DescendantsReachParent | pages/inventory/inventory.php:156-166 | Every id after the first is a category whose parent chain reaches the parent |
| Inventory.DescendantsComplete | pages/inventory/inventory.php:156-166 | On acyclic input, every category whose parent chain reaches the parent is in the result |
| Inventory.DescendantsOnce | pages/inventory/inventory.php:156-166 | On acyclic input with distinct ids, no id is listed twice: the parent only first, then each descendant once |
| Inventory.FormItem | pages/inventory/inventory.php:220-238 | The written row carries the trimmed name, the category, the active box, the creator and the editor |
| Inventory.BlankNameRefused | pages/inventory/inventory.php:233 | A name of blanks only is refused |
| Inventory.Submitted | pages/inventory/inventory.php:251-267 | A submitted location gets a record iff its quantity or threshold (missing read as 0) is positive, and the record holds exactly those values |
| Inventory.Placed | pages/inventory/inventory.php:257-264 | The item's records at exactly those locations, with no adjustment stamp |
| Inventory.WithoutItem | pages/inventory/inventory.php:361-363 | Every record of the item is removed, and every other record is kept as it was |
| Inventory.Replaced | pages/inventory/inventory.php:359-381 | After delete-then-insert the item has records exactly at the kept submitted locations, with the submitted values, and no other item's records change |
| Inventory.InsertStocks | pages/inventory/inventory.php:251-267 | The insert loop adds exactly `Placed(item, Submitted(...))` to a table holding no record of the item |
| Inventory.StockChanges | pages/inventory/inventory.php:401-440 | A location is listed iff it had a record whose submitted level (missing read as 0) differs, or had none and is submitted with a positive quantity or threshold; old levels are the stored ones, or 0/0 for a new location |
| Inventory.DiffStocks | pages/inventory/inventory.php:401-433 | The two `$stock_changes` loops compute `StockChanges` |
| Inventory.StockChangesUnique | pages/inventory/inventory.php:401-433 | Any map with the keys and values `StockChanges` promises is `StockChanges`, so those contracts determine it |
| Inventory.NoStockChangeIffSameLevels | pages/inventory/inventory.php:401-440 | When every stored record would be kept and is submitted, no stock change is listed iff the written levels equal the stored ones |
| Inventory.LevelsAfterReplacement | pages/inventory/inventory.php:359-381 | Read back after a replacement, the item's levels are exactly the filtered submission |
| Inventory.ChangedAmong | pages/inventory/inventory.php:391-399 | A column is listed iff it is one of the given columns and the rows differ in it under PHP's loose `!=` (text columns by `Common.LooseStrEq`, including its text comparison of overflowed and infinite numbers) |
| Inventory.NoneDiffer | pages/inventory/inventory.php:391-399 | Columns none of which differ yield an empty change list |
| Inventory.ChangedColumns | pages/inventory/inventory.php:391-399 | The listed columns are exactly the form columns whose stored and written values differ under PHP's loose `!=`; at most ten |
| Inventory.NoChangedColumnsIffSame | pages/inventory/inventory.php:391-399 | No column is listed iff the rows loosely agree on every form column (`LooselySame`: text by `Common.LooseStrEq`, so two zero-padded forms of a number past 2^63 differ, the rest by value); rows equal on every form column list nothing; `updated_by` is never listed |
| Inventory.UnchangedLooselySame | pages/inventory/inventory.php:391-399 | An empty change list means the rows loosely agree |
| Inventory.LooselySameUnchanged | pages/inventory/inventory.php:391-399 | Rows that loosely agree give an empty change list |
| Inventory.SameIsLooselySame | pages/inventory/inventory.php:391-399 | Rows equal on every form column loosely agree |
| Inventory.RenumberedPartNotLogged | pages/inventory/inventory.php:391-440 | Rewriting a part number with leading zeros as the bare digits ("0012" to "12") changes the stored text; no column is listed and, with no stock change, no history row is written, iff there were no zeros or the number is below 2^63; otherwise part_number alone is listed |
| Inventory.PartNumberEdit | pages/inventory/inventory.php:391-399 | An edit that changes only the part number lists part_number alone iff the two part numbers are not loosely equal, and nothing otherwise |
| Inventory.OnlyPartNumberDiffers | pages/inventory/inventory.php:391-399 | Such an edit differs in no form column but part_number, and in that one iff the part numbers are not loosely equal |
| Inventory.EditEntries | pages/inventory/inventory.php:440-456 | No history row iff neither a column nor a stock level changed; otherwise exactly one 'update' row by this editor for this item |
| Inventory.AddItem | pages/inventory/inventory.php:218-299 | A blank name or category 0 is refused with nothing written. Otherwise the item is inserted, its filtered stock records are inserted, and one 'create' history row is appended |
| Inventory.ReplaceStocks | pages/inventory/inventory.php:359-381 | The stock table becomes `Replaced` of the old one |
| Inventory.RecordEdit | pages/inventory/inventory.php:440-456 | The history grows by exactly `EditEntries` |
| Inventory.Edited | pages/inventory/inventory.php:330-343 | The rewritten row keeps the original creator and records this editor |
| Inventory.WriteEdit | pages/inventory/inventory.php:352-456 | The row is rewritten; the stock table is `Replaced` when quantities were submitted and untouched when not; history grows by exactly `EditEntries` |
| Inventory.EditItem | pages/inventory/inventory.php:301-457 | Item id 0, a missing item, and a blank name or category 0 are refused, with their messages and nothing written. Otherwise the call succeeds: the row is rewritten; the stock table is `Replaced` when quantities were submitted and untouched when not; history grows by the change list computed from the records read before the write |
| Inventory.ReactivateItem | pages/inventory/inventory.php:459-501 | Item id 0 is refused. Otherwise an existing item becomes active with this editor, and one 'update' history row is appended even when no row matched |
| Inventory.UnsubmittedEditListsStockAsCleared | pages/inventory/inventory.php:359-417 | An edit that submits no quantities keeps the records but lists a 5/2 record as changed to 0/0 |
| Inventory.ThresholdOnlyRecordDroppedSilently | pages/inventory/inventory.php:370-417 | A threshold-only record edited with no quantity is deleted, yet no stock change is listed |
| Audit.AdjustError | pages/inventory/invAudit.php:44-60 | An adjustment goes ahead iff both ids are non-zero, the count is not negative and the record exists; otherwise the handler's first message in order |
| Audit.Adjusted | pages/inventory/invAudit.php:66-93 | Only the adjusted record changes: its quantity becomes the count and it is stamped. Exactly one 'stock_adjust' row is appended, holding old, new and new minus old |
| Audit.AdjustStock | pages/inventory/invAudit.php:38-103 | Refused with nothing written when `AdjustError` gives a reason; otherwise stocks and history become those of `Adjusted` |
| Audit.AdjustedSeries | pages/inventory/invAudit.php:66-93 | A run of adjustments keeps the record set and appends one history row per count |
| Audit.AmountsReconcile | pages/inventory/invAudit.php:66-93 | After any run of adjustments of one record, the recorded amounts sum to the final quantity minus the first |
| Audit.RequestError | pages/inventory/invAudit.php:114-127 | A request is accepted iff the item id is non-zero, the quantity is positive and a non-empty date parses; item id is checked first, then quantity |
| Audit.NormalPriority | pages/inventory/invAudit.php:110-124 | The result is always one of the four priorities: the submitted one if it is one of them, otherwise 'normal' |
| Audit.NewRequest | pages/inventory/invAudit.php:135-149 | No source location; a destination iff one was chosen; a needed-by date iff a truthy one was given; a recognised priority; the table's default status; no approval or completion stamps |
| Audit.RequestItem | pages/inventory/invAudit.php:105-183 | Refused with nothing written when `RequestError` gives a reason; otherwise the row is inserted and one 'assignment' history row is appended |
| Audit.ZeroDateIgnored | pages/inventory/invAudit.php:127-148 | The falsy date "0" is neither checked nor stored |
| Audit.Deduplicated | pages/inventory/invAudit.php:298-312 | Never longer than the input |
| Audit.DeduplicatedIsUnique | pages/inventory/invAudit.php:298-312 | Each item appears once, and every item of the input is still there |
| Audit.DeduplicatedKeepsFirsts | pages/inventory/invAudit.php:303-312 | A row is kept iff no earlier row has its item, and kept rows keep their order |
| Audit.DistinctRowsUnchanged | pages/inventory/invAudit.php:298-301 | Without a repeated item the list is unchanged |
| Audit.RemoveDuplicateItems | pages/inventory/invAudit.php:298-312 | The check and the `$seen_ids` loop compute `Deduplicated` |
| Audit.PickerListsEveryLocation | pages/inventory/invAudit.php:219-234 | Every row with a location puts that location in the group of its site |
| Audit.PickerListsOnlyRowLocations | pages/inventory/invAudit.php:219-234 | Every location listed under a site comes from a row of that site that has a location |
| Requests.ValidateStatusUpdate | pages/inventory/requestManagement.php:39-88 | The checks run in order: id 0, unknown status, unknown non-empty priority, missing request, approval bounds. An accepted update stores a recognised status; an 'approved' below the requested quantity is stored as 'partially_approved'; any other status is stored as given |
| Requests.MissingRequestRefused | pages/inventory/requestManagement.php:65-72 | Valid input for a request that does not exist is refused with "Request not found." |
| Requests.ApprovalBounds | pages/inventory/requestManagement.php:75-84 | An approval or partial approval is accepted iff the quantity is present, not negative, not above the requested one, and below it for a partial approval |
| Requests.ApprovalCorrected | pages/inventory/requestManagement.php:85-87 | A full approval of less than requested is stored as 'partially_approved' |
| Requests.UpdateFields | pages/inventory/requestManagement.php:94-115 | Status and notes are always first. The approver and time are set iff the status is a decision, plus the quantity iff one is given. The completer is set iff the status is 'completed'. The priority is set iff a given priority differs from the stored one |
| Requests.ApplyFields | pages/inventory/requestManagement.php:117-127 | The UPDATE never touches the item, the requester, the quantity requested, the locations or the request time |
| Requests.ApplyAppend | pages/inventory/requestManagement.php:117-127 | Applying a concatenation of assignments applies them in turn |
| Requests.StampsFollowStatus | pages/inventory/requestManagement.php:94-115 | After the update, approval stamps are set by a decision and kept otherwise, completion stamps are set by 'completed' and kept otherwise, notes are always written, and the priority changes only to a given one |
| Requests.UpdateRequestStatus | pages/inventory/requestManagement.php:36-161 | Refused with nothing written when validation fails. Otherwise the row becomes `StatusUpdated` with trimmed notes, and one 'assignment' row records the old and the stored status |
| Requests.StatusColor | pages/inventory/requestManagement.php:276-287 | A total map onto the badge colours, gray for any unknown status; green iff approved or completed |
| Requests.PriorityColor | pages/inventory/requestManagement.php:289-298 | A total map, gray iff the priority is low or unknown |
| Requests.PriorityRank | pages/inventory/requestManagement.php:261-268 | The CASE gives a rank 1..4 iff the priority is one of the four, NULL otherwise |
| Requests.ListedBeforeTotal | pages/inventory/requestManagement.php:261-268 | The list order is total |
| Requests.ListedBeforeTransitive | pages/inventory/requestManagement.php:261-268 | The list order is transitive |
| Requests.PriorityOrder | pages/inventory/requestManagement.php:261-267 | Urgent before high before normal before low, whatever the dates |
| Requests.UnknownPriorityFirst | pages/inventory/requestManagement.php:261-267 | An unrecognised priority (NULL rank) sorts before urgent |
| Requests.StoredPrioritiesRanked | pages/inventory/requestManagement.php:55-115 | Every priority an update stores has a rank |
| Locations.SiteFlagged | pages/locations/locations.php:116 | Only the named site's flag changes; an unknown id changes nothing |
| Locations.LocationFlagged | pages/locations/locations.php:136 | Only the named location's flag changes; an unknown id changes nothing |
| Locations.SiteLocationsDeactivated | pages/locations/locations.php:121 | Exactly the site's locations become inactive; the others are unchanged |
| Locations.DeactivateSite | pages/locations/locations.php:111-129 | The site and all its locations become inactive |
| Locations.DeactivateLocation | pages/locations/locations.php:131-144 | Only that location becomes inactive |
| Locations.ReactivateSite | pages/locations/locations.php:146-159 | Only the site becomes active |
| Locations.ReactivateLocation | pages/locations/locations.php:161-174 | Only that location becomes active |
| Locations.ReactivationDoesNotCascade | pages/locations/locations.php:116-153 | Deactivating then reactivating a site restores the site but leaves every one of its locations inactive |
| Locations.LocationRoundTrip | pages/locations/locations.php:136-166 | Deactivating then reactivating an active location restores the table |
| Locations.RedirectMessage | pages/locations/locations.php:177 | Success iff the success message is truthy; error iff it is not and the error is truthy; otherwise no message |
| Locations.AttachedToMembers | pages/locations/locations.php:266-288 | A site's locations are exactly those of its rows that have a location, active or shown anyway |
| Locations.GroupedOncePerSite | pages/locations/locations.php:238-252 | Each site of the rows has exactly one group, and every group is for a site of the rows |
| Locations.GroupedFirstSeenOrder | pages/locations/locations.php:238-252 | Groups come in the order of their site's first row, named from that row |
| Locations.HiddenInactive | pages/locations/locations.php:266-288 | With inactive locations hidden, every listed location is active and real |
| Locations.GroupBySite | pages/locations/locations.php:238-289 | The `$sites` loop computes `Grouped` |
| Dashboard.Child | includes/dashboard_functions.php:12-15 | A category contributes iff it is active and its parent is the key, and then its own id comes first |
| Dashboard.CategoryTree | includes/dashboard_functions.php:5-16 | Empty iff no category has the base id; otherwise the base comes first, active or not; every id is a category id |
| Dashboard.TreeSound | includes/dashboard_functions.php:11-15 | Every id after the base is reached from it through active categories only |
| Dashboard.InactiveCutOff | includes/dashboard_functions.php:15 | A category whose rows are all inactive is in no tree but its own |
| Dashboard.TreeComplete | includes/dashboard_functions.php:5-16 | On acyclic input, every category reached from an existing base through active ones is in the tree |
| Dashboard.TreeExamples | includes/dashboard_functions.php:5-16 | An inactive middle category hides its active child; an inactive base still yields its active children |
| Dashboard.LowStockItems | includes/dashboard_functions.php:17-27 | Exactly the active items in the tree whose total is positive and at most the item's threshold |
| Dashboard.ZeroStockItems | includes/dashboard_functions.php:50-59 | Exactly the active items in the tree whose total is 0, and none of them is a low item |
| Dashboard.CountsBounded | includes/dashboard_functions.php:17-59 | The two counts together never exceed the number of active items in the tree |
| Dashboard.NoRecordsIsZero | includes/dashboard_functions.php:52-59 | An active item in the tree without stock rows is counted as out of stock |
| Dashboard.LowRulesDiffer | includes/dashboard_functions.php:27 | The inclusive item-threshold rule and the per-location rule of pages/inventory/inventory.php:123 disagree both ways |
| Auth.Decide | includes/auth.php:2-32 | A cached permission is allowed, with the list unchanged. Otherwise access is allowed iff the lookup found a truthy name, which is then appended. A refusal, a missing row or a database error leaves the list unchanged |
| Auth.SessionGrows | includes/auth.php:6-26 | Over any run of checks, the list only grows and keeps its earlier entries in place |
| Auth.GrantedStaysAllowed | includes/auth.php:6 | Once a name is in the list, every later check of it is allowed, whatever the database would answer |
| Auth.StoredNameNotRequested | includes/auth.php:19-26 | The list stores the database's name, not the requested one, so a match in a different letter case is looked up again |
| Auth.FalsyNameRefused | includes/auth.php:21-24 | A permission named "0" is refused even when found |
| Auth.PermissionCache.CheckAccess | includes/auth.php:2-32 | The answer and the new list are those of `Decide` on the old list |

## Left out

- HTML, CSS, JavaScript, the print views and the option renderers (`renderCategoryOptions`,
  `renderLocationOptions`) are not modelled. They produce markup and hold no rules.
- SQL text, PDO, sessions, headers, redirects and `exit` are not modelled. Each handler's
  observable effect is stated on the tables it writes.
- login.php and users.php are not part of this model. The first depends on `password_verify`;
  the second is plain CRUD.
- Floating-point quantities and unit costs are integers in hundredths. The rules only compare
  and subtract them.
- Dates and times are parameters: `NOW()`, `date()` and the request listing's overdue flag.
  `DateTime::createFromFormat` is a boolean parameter (`dateParses`), and the model does not
  claim that a needed-by date is a calendar date.
- History details are typed payloads (`Schema.HistoryAction`), not JSON. An item edit's field
  changes are recorded by column name only, without the old and new values.
- Concurrency, isolation and the database's own failures are not modelled. An exception raised
  by the database in the middle of a handler is not modelled either, except in `check_access`,
  where the lookup's error is an input.
- Inventory.AddItem, Inventory.EditItem: in the source, the history row is written after
  `commit` (pages/inventory/inventory.php:269 vs 289-296, 383 vs 446-453). The model appends it
  in the same call, so it does not capture a failure between the two.
- Inventory.AddItem, Inventory.EditItem, Inventory.ReactivateItem: every refusal throws before
  `beginTransaction` (pages/inventory/inventory.php:233 vs 241, 304-345 vs 350, 463 vs 467), and
  the catch block calls `rollback()` unconditionally (line 503). With no open transaction that
  call throws again, uncaught, so the page ends in an error and the refusal's message is never
  shown. The model returns `Failed(message)`, the message the handler meant to show. The tables
  are unchanged in both.
- Audit.RequestItem: the status of a new request comes from a column default that is not visible
  in the code, so it is the `requestStatusDefault` constant of the database, not 'pending'.
- The audit page's use of `$selected_location_id` before it is defined
  (pages/inventory/invAudit.php:180 vs 207) is not modelled. It only affects the redirect.
- Audit.AdjustStock: a new `last_adjusted_at` is the caller's timestamp.
- Requests.UpdateRequestStatus: lines 59-62 of pages/inventory/requestManagement.php are not
  modelled. They write to an array that line 94 replaces, so they have no effect.
- Requests.ValidateStatusUpdate: `in_array` compares loosely, but every value it is checked
  against is a non-numeric string, so for a posted string loose and exact comparison agree. The
  model compares exactly.
- Auth.Decide: `in_array` over the session list compares loosely, so two numeric names such as
  "1e1" and "10" would count as equal. The model compares names exactly.
- Categories.Scan, Inventory.DescScan, Dashboard.Below: on cyclic parent links the PHP recursion
  never ends. The dashboard's recursive query uses `UNION ALL`
  (includes/dashboard_functions.php:9, 42), so on a cycle MySQL aborts the statement once it
  passes its recursion depth limit. The connection throws on errors
  (includes/db_connect1.php:23), so the low-stock and zero-stock counts fail with an uncaught
  exception. On the same input the model's path guard returns a finite result: it lists a
  category already being expanded once more and does not expand it again. Completeness and
  "listed once" are stated for acyclic input only.
- Dashboard.CategoryTree: the category id is interpolated into the SQL text
  (includes/dashboard_functions.php:7,40). The model takes it as an integer, so injected SQL is
  not captured.
- Locations.GroupBySite: the site and location columns that are only displayed (address,
  descriptions, creation times, the site's active flag) are not carried in the groups.
- Locations.DeactivateSite and the other activation handlers: the `PDOException` catch is not
  modelled. Each handler issues plain UPDATEs with no validation.
- Common.LooseStrEq: where PHP compares two finite doubles, the model compares their exact
  decimal values, so it misses the cases where rounding to a double makes two different numbers
  equal: "0.1" and "0.10000000000000001", "1e-400" and "0", "9007199254740993" and
  "9007199254740992.0". In each the model says different where PHP says equal. A 32-bit build,
  whose integer range is smaller, is not modelled.
- Inventory.ChangedColumns: text columns are strings in the model. A NULL stored in a text
  column by something other than the item form is not modelled; PHP's `null != ""` is false.
- Categories.PostedParent: the `(int)` cast of the posted string is a parameter (`parentCast`);
  PHP's string-to-integer conversion is not modelled.
- Audit.PickerListsEveryLocation: the picker's query already filters out inactive sites and
  locations (pages/inventory/invAudit.php:210-214). The grouping is therefore
  `Locations.Grouped(rows, true)` over those rows, rather than a second copy of the loop.
