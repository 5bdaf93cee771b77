/**
 * The categories page: the indented category outline (buildCategoryTree), the parent column,
 * and the add, edit, deactivate and reactivate handlers.
 *
 * The source recurses over parent pointers with no cycle guard. The model descends into a
 * category only when its id is not already on the path of categories being expanded; on
 * acyclic input (see Ranked) that guard never fires, so the model computes what the page does.
 */
module Categories {
  import opened Common
  import opened Schema

  /**
   * PHP's loose `==` between nullable integer ids: null equals null and also 0. This holds when
   * the driver returns integer columns as integers; with string columns `null == "0"` is false.
   */
  predicate LooseEq(a: Option<int>, b: Option<int>)
  {
    match (a, b)
    case (None, None) => true
    case (None, Some(y)) => y == 0
    case (Some(x), None) => x == 0
    case (Some(x), Some(y)) => x == y
  }

  /** The parent id as an integer, null read as 0, which is how loose comparison sees it. */
  function ParentKey(c: Category): int
  {
    match c.parent
    case None => 0
    case Some(p) => p
  }

  lemma LooseEqParentKey(c: Category, k: int)
    ensures LooseEq(c.parent, Some(k)) <==> ParentKey(c) == k
  {
  }

  function Ids(cats: seq<Category>): set<int>
  {
    set c | c in cats :: c.id
  }

  /** One line of the outline: a category and its indentation level. */
  datatype Entry = Entry(cat: Category, level: nat)

  /**
   * buildCategoryTree($categories, key, level), restricted to the categories from index i on:
   * each category whose parent loosely equals `key` is emitted at `level` and followed at once
   * by its own subtree one level deeper. `path` holds the ids being expanded.
   */
  function Scan(cats: seq<Category>, i: nat, key: Option<int>, level: nat, path: set<int>): (out: seq<Entry>)
    requires i <= |cats|
    ensures forall j :: 0 <= j < |out| ==> out[j].cat in cats && out[j].level >= level
    ensures forall j :: 0 <= j < |out| && out[j].level == level ==> LooseEq(out[j].cat.parent, key)
    decreases Ids(cats) - path, |cats| - i
  {
    if i == |cats| then []
    else Block(cats, i, key, level, path) + Scan(cats, i + 1, key, level, path)
  }

  /** What category i contributes to Scan: nothing, or itself followed by its subtree. */
  function Block(cats: seq<Category>, i: nat, key: Option<int>, level: nat, path: set<int>): (out: seq<Entry>)
    requires i < |cats|
    ensures forall j :: 0 <= j < |out| ==> out[j].cat in cats && out[j].level >= level
    ensures forall j :: 0 <= j < |out| && out[j].level == level ==> LooseEq(out[j].cat.parent, key)
    ensures LooseEq(cats[i].parent, key) <==> out != []
    ensures out != [] ==> out[0] == Entry(cats[i], level)
    decreases Ids(cats) - path, |cats| - i, 0
  {
    var c := cats[i];
    if !LooseEq(c.parent, key) then []
    else if c.id in path then [Entry(c, level)]
    else
      assert c.id in Ids(cats) - path;
      [Entry(c, level)] + Scan(cats, 0, Some(c.id), level + 1, path + {c.id})
  }

  /** The outline the page renders: roots (null or 0 parent) at level 0, then their subtrees. */
  function BuildTree(cats: seq<Category>): seq<Entry>
  {
    Scan(cats, 0, None, 0, {})
  }

  /** Entry j sits directly under an earlier entry k: one level up, its parent, and nothing shallower lies between. */
  ghost predicate ParentBefore(out: seq<Entry>, j: int, k: int)
    requires 0 <= k < j < |out|
  {
    && out[k].level + 1 == out[j].level
    && LooseEq(out[j].cat.parent, Some(out[k].cat.id))
    && forall m :: k < m < j ==> out[m].level >= out[j].level
  }

  /** Line j of an outline rooted at `key` and `level` is well placed. */
  ghost predicate LineOk(out: seq<Entry>, j: int, key: Option<int>, level: nat)
    requires 0 <= j < |out|
  {
    && out[j].level >= level
    && (out[j].level == level ==> LooseEq(out[j].cat.parent, key))
    && (out[j].level > level ==> exists k :: 0 <= k < j && ParentBefore(out, j, k))
  }

  /**
   * The shape of an indented outline rooted at `key`: every line is at least at `level`; lines
   * at `level` have parent `key`; every deeper line hangs under the nearest shallower line before it.
   */
  ghost predicate Outline(out: seq<Entry>, key: Option<int>, level: nat)
  {
    forall j :: 0 <= j < |out| ==> LineOk(out, j, key, level)
  }

  /** Every line of an outline is at least at its level. */
  lemma OutlineFloor(out: seq<Entry>, key: Option<int>, level: nat)
    requires Outline(out, key, level)
    ensures forall j :: 0 <= j < |out| ==> out[j].level >= level
  {
    forall j | 0 <= j < |out|
      ensures out[j].level >= level
    {
      assert LineOk(out, j, key, level);
    }
  }

  lemma OutlineAppend(a: seq<Entry>, b: seq<Entry>, key: Option<int>, level: nat)
    requires Outline(a, key, level) && Outline(b, key, level)
    ensures Outline(a + b, key, level)
  {
    var ab := a + b;
    forall j | 0 <= j < |ab|
      ensures LineOk(ab, j, key, level)
    {
      if j < |a| {
        assert LineOk(a, j, key, level) && ab[j] == a[j];
        if ab[j].level > level {
          var k :| 0 <= k < j && ParentBefore(a, j, k);
          assert ParentBefore(ab, j, k);
        }
      } else {
        var j' := j - |a|;
        assert LineOk(b, j', key, level) && ab[j] == b[j'];
        if ab[j].level > level {
          var k :| 0 <= k < j' && ParentBefore(b, j', k);
          assert ParentBefore(ab, j, k + |a|);
        }
      }
    }
  }

  lemma OutlineUnder(c: Category, sub: seq<Entry>, key: Option<int>, level: nat)
    requires LooseEq(c.parent, key) && Outline(sub, Some(c.id), level + 1)
    ensures Outline([Entry(c, level)] + sub, key, level)
  {
    var out := [Entry(c, level)] + sub;
    OutlineFloor(sub, Some(c.id), level + 1);
    forall j | 0 <= j < |out|
      ensures LineOk(out, j, key, level)
    {
      if j > 0 {
        var j' := j - 1;
        assert out[j] == sub[j'] && LineOk(sub, j', Some(c.id), level + 1);
        if out[j].level == level + 1 {
          assert ParentBefore(out, j, 0);
        } else {
          var k :| 0 <= k < j' && ParentBefore(sub, j', k);
          assert ParentBefore(out, j, k + 1);
        }
      }
    }
  }

  /** Scan, and so the whole tree, is an indented outline: pre-order, children one level deeper. */
  lemma {:induction false} ScanIsOutline(cats: seq<Category>, i: nat, key: Option<int>, level: nat, path: set<int>)
    requires i <= |cats|
    ensures Outline(Scan(cats, i, key, level, path), key, level)
    decreases Ids(cats) - path, |cats| - i
  {
    if i < |cats| {
      BlockIsOutline(cats, i, key, level, path);
      ScanIsOutline(cats, i + 1, key, level, path);
      OutlineAppend(Block(cats, i, key, level, path), Scan(cats, i + 1, key, level, path), key, level);
    }
  }

  lemma {:induction false} BlockIsOutline(cats: seq<Category>, i: nat, key: Option<int>, level: nat, path: set<int>)
    requires i < |cats|
    ensures Outline(Block(cats, i, key, level, path), key, level)
    decreases Ids(cats) - path, |cats| - i, 0
  {
    var c := cats[i];
    if LooseEq(c.parent, key) {
      if c.id in path {
        OutlineUnder(c, [], key, level);
      } else {
        assert c.id in Ids(cats) - path;
        ScanIsOutline(cats, 0, Some(c.id), level + 1, path + {c.id});
        OutlineUnder(c, Scan(cats, 0, Some(c.id), level + 1, path + {c.id}), key, level);
      }
    }
  }

  lemma TreeIsOutline(cats: seq<Category>)
    ensures Outline(BuildTree(cats), None, 0)
    ensures BuildTree(cats) != [] ==> BuildTree(cats)[0].level == 0
  {
    ScanIsOutline(cats, 0, None, 0, {});
    if BuildTree(cats) != [] {
      assert LineOk(BuildTree(cats), 0, None, 0);
    }
  }

  /**
   * c's chain of parents stays inside `cats` for `depth` steps and then reaches `key`:
   * depth 0 means c's own parent is `key`.
   */
  ghost predicate RootedAt(cats: seq<Category>, c: Category, key: Option<int>, depth: nat)
    decreases depth
  {
    if depth == 0 then LooseEq(c.parent, key)
    else exists p :: p in cats && LooseEq(c.parent, Some(p.id)) && RootedAt(cats, p, key, depth - 1)
  }

  lemma RootedFromOutline(cats: seq<Category>, out: seq<Entry>, key: Option<int>, level: nat)
    requires Outline(out, key, level)
    requires forall j :: 0 <= j < |out| ==> out[j].cat in cats
    ensures forall j :: 0 <= j < |out| ==> out[j].level >= level && RootedAt(cats, out[j].cat, key, out[j].level - level)
  {
    forall j | 0 <= j < |out|
      ensures out[j].level >= level && RootedAt(cats, out[j].cat, key, out[j].level - level)
    {
      RootedPrefix(cats, out, key, level, j);
    }
  }

  lemma {:induction false} RootedPrefix(cats: seq<Category>, out: seq<Entry>, key: Option<int>, level: nat, j: nat)
    requires Outline(out, key, level)
    requires forall m :: 0 <= m < |out| ==> out[m].cat in cats
    requires j < |out|
    ensures out[j].level >= level && RootedAt(cats, out[j].cat, key, out[j].level - level)
    decreases j
  {
    assert LineOk(out, j, key, level);
    if out[j].level > level {
      var k :| 0 <= k < j && ParentBefore(out, j, k);
      RootedPrefix(cats, out, key, level, k);
      assert out[j].level - level - 1 == out[k].level - level;
      assert RootedAt(cats, out[k].cat, key, out[j].level - level - 1);
    }
  }

  /**
   * Every category in the outline has its whole ancestor chain in the input, ending at a root,
   * and its level is the length of that chain. So a category whose parent is missing from the
   * input (an inactive parent when only active rows are loaded) is never shown, and neither
   * is anything below it.
   */
  lemma TreeEntriesAreRooted(cats: seq<Category>)
    ensures forall j :: 0 <= j < |BuildTree(cats)| ==>
              RootedAt(cats, BuildTree(cats)[j].cat, None, BuildTree(cats)[j].level)
  {
    ScanIsOutline(cats, 0, None, 0, {});
    RootedFromOutline(cats, BuildTree(cats), None, 0);
  }

  /** A category whose parent id is non-zero and missing from the input has no chain to a root. */
  lemma OrphanUnrooted(cats: seq<Category>, c: Category, depth: nat)
    requires ParentKey(c) != 0
    requires forall p :: p in cats ==> p.id != ParentKey(c)
    ensures !RootedAt(cats, c, None, depth)
  {
    forall p | p in cats
      ensures !LooseEq(c.parent, Some(p.id))
    {
      LooseEqParentKey(c, p.id);
    }
  }

  /** A category whose non-null, non-zero parent id is not in the input never appears. */
  lemma OrphanNeverShown(cats: seq<Category>, c: Category)
    requires ParentKey(c) != 0
    requires forall p :: p in cats ==> p.id != ParentKey(c)
    ensures forall j :: 0 <= j < |BuildTree(cats)| ==> BuildTree(cats)[j].cat != c
  {
    TreeEntriesAreRooted(cats);
    forall j | 0 <= j < |BuildTree(cats)|
      ensures BuildTree(cats)[j].cat != c
    {
      OrphanUnrooted(cats, c, BuildTree(cats)[j].level);
    }
  }

  /** The categories whose parent loosely equals `key`, in input order. */
  function ChildrenOf(cats: seq<Category>, key: Option<int>): (kids: seq<Category>)
    ensures forall c :: c in kids ==> c in cats && LooseEq(c.parent, key)
  {
    if cats == [] then []
    else (if LooseEq(cats[0].parent, key) then [cats[0]] else []) + ChildrenOf(cats[1..], key)
  }

  /** The categories of the lines at exactly `level`, in order. */
  function AtLevel(out: seq<Entry>, level: nat): seq<Category>
  {
    if out == [] then []
    else (if out[0].level == level then [out[0].cat] else []) + AtLevel(out[1..], level)
  }

  lemma {:induction false} AtLevelAppend(a: seq<Entry>, b: seq<Entry>, level: nat)
    ensures AtLevel(a + b, level) == AtLevel(a, level) + AtLevel(b, level)
  {
    if a == [] {
      assert a + b == b;
    } else {
      var head := if a[0].level == level then [a[0].cat] else [];
      assert (a + b)[0] == a[0] && (a + b)[1..] == a[1..] + b;
      assert AtLevel(a + b, level) == head + AtLevel(a[1..] + b, level);
      AtLevelAppend(a[1..], b, level);
      assert AtLevel(a, level) == head + AtLevel(a[1..], level);
    }
  }

  lemma {:induction false} AtLevelDeeper(out: seq<Entry>, level: nat)
    requires forall j :: 0 <= j < |out| ==> out[j].level > level
    ensures AtLevel(out, level) == []
  {
    if out != [] {
      AtLevelDeeper(out[1..], level);
    }
  }

  /** Of a block, only its head line sits at the scan's own level. */
  lemma BlockAtLevel(cats: seq<Category>, i: nat, key: Option<int>, level: nat, path: set<int>)
    requires i < |cats|
    ensures AtLevel(Block(cats, i, key, level, path), level) == if LooseEq(cats[i].parent, key) then [cats[i]] else []
  {
    var b := Block(cats, i, key, level, path);
    if b != [] {
      var c := cats[i];
      if c.id !in path {
        assert c.id in Ids(cats) - path;
        var sub := Scan(cats, 0, Some(c.id), level + 1, path + {c.id});
        assert b == [Entry(c, level)] + sub;
        AtLevelDeeper(sub, level);
        AtLevelAppend([Entry(c, level)], sub, level);
      }
    }
  }

  /**
   * The lines at the outline's own level are exactly the categories whose parent is `key`,
   * each once, in input order: siblings keep the order of the query result.
   */
  lemma {:induction false} SiblingsInInputOrder(cats: seq<Category>, i: nat, key: Option<int>, level: nat, path: set<int>)
    requires i <= |cats|
    ensures AtLevel(Scan(cats, i, key, level, path), level) == ChildrenOf(cats[i..], key)
    decreases |cats| - i
  {
    if i < |cats| {
      AtLevelAppend(Block(cats, i, key, level, path), Scan(cats, i + 1, key, level, path), level);
      BlockAtLevel(cats, i, key, level, path);
      SiblingsInInputOrder(cats, i + 1, key, level, path);
      assert cats[i..][0] == cats[i] && cats[i..][1..] == cats[i + 1..];
    }
  }

  /** The roots of the outline are the null- or 0-parent categories, in input order. */
  lemma RootsInInputOrder(cats: seq<Category>)
    ensures AtLevel(BuildTree(cats), 0) == ChildrenOf(cats, None)
  {
    SiblingsInInputOrder(cats, 0, None, 0, {});
    assert cats[0..] == cats;
  }

  /** Acyclicity, witnessed by a rank on ids that grows strictly from every parent id to its child. */
  ghost predicate Ranked(cats: seq<Category>, rank: int -> nat)
  {
    forall c :: c in cats ==> rank(c.id) > rank(ParentKey(c))
  }

  /** No id on the expansion path ranks above the key being expanded. */
  ghost predicate SafePath(path: set<int>, key: Option<int>, rank: int -> nat)
  {
    forall x :: x in path ==> key.Some? && rank(x) <= rank(key.value)
  }

  lemma {:induction false} BlockInScan(cats: seq<Category>, i: nat, k: nat, key: Option<int>, level: nat, path: set<int>)
    requires i <= k < |cats|
    ensures forall e :: e in Block(cats, k, key, level, path) ==> e in Scan(cats, i, key, level, path)
    decreases k - i
  {
    if i < k {
      BlockInScan(cats, i + 1, k, key, level, path);
    }
  }

  lemma {:induction false} RootedSplit(cats: seq<Category>, c: Category, key: Option<int>, depth: nat)
    requires RootedAt(cats, c, key, depth + 1)
    ensures exists a :: a in cats && LooseEq(a.parent, key) && RootedAt(cats, c, Some(a.id), depth)
    decreases depth
  {
    var p :| p in cats && LooseEq(c.parent, Some(p.id)) && RootedAt(cats, p, key, depth);
    if depth == 0 {
      assert RootedAt(cats, c, Some(p.id), 0);
    } else {
      RootedSplit(cats, p, key, depth - 1);
      var a :| a in cats && LooseEq(a.parent, key) && RootedAt(cats, p, Some(a.id), depth - 1);
      assert RootedAt(cats, c, Some(a.id), depth);
    }
  }

  /** A child of `key` is never on a safe path, and extending the path by it stays safe. */
  lemma ChildOffPath(cats: seq<Category>, a: Category, key: Option<int>, path: set<int>, rank: int -> nat)
    requires Ranked(cats, rank) && SafePath(path, key, rank)
    requires a in cats && LooseEq(a.parent, key)
    ensures a.id !in path
    ensures SafePath(path + {a.id}, Some(a.id), rank)
  {
    if key.Some? {
      LooseEqParentKey(a, key.value);
    }
  }

  /** An unguarded matching block is its head followed by the head's subtree. */
  lemma BlockUnfold(cats: seq<Category>, i: nat, key: Option<int>, level: nat, path: set<int>)
    requires i < |cats| && LooseEq(cats[i].parent, key) && cats[i].id !in path
    ensures Block(cats, i, key, level, path) ==
            [Entry(cats[i], level)] + Scan(cats, 0, Some(cats[i].id), level + 1, path + {cats[i].id})
  {
  }

  /** A line of an unguarded child's block is a line of the scan over all categories. */
  lemma ChildLineInScan(cats: seq<Category>, a: Category, key: Option<int>, level: nat, path: set<int>, e: Entry)
    requires a in cats && LooseEq(a.parent, key) && a.id !in path
    requires e == Entry(a, level) || e in Scan(cats, 0, Some(a.id), level + 1, path + {a.id})
    ensures e in Scan(cats, 0, key, level, path)
  {
    var i :| 0 <= i < |cats| && cats[i] == a;
    BlockUnfold(cats, i, key, level, path);
    assert e in Block(cats, i, key, level, path);
    BlockInScan(cats, 0, i, key, level, path);
  }

  /** On acyclic input every category reachable from `key` appears at the depth of its chain. */
  lemma {:induction false} ScanComplete(cats: seq<Category>, key: Option<int>, level: nat, path: set<int>,
                                        rank: int -> nat, c: Category, depth: nat)
    requires Ranked(cats, rank) && SafePath(path, key, rank)
    requires c in cats && RootedAt(cats, c, key, depth)
    ensures Entry(c, level + depth) in Scan(cats, 0, key, level, path)
    decreases depth
  {
    if depth == 0 {
      ChildOffPath(cats, c, key, path, rank);
      ChildLineInScan(cats, c, key, level, path, Entry(c, level));
    } else {
      RootedSplit(cats, c, key, depth - 1);
      var a :| a in cats && LooseEq(a.parent, key) && RootedAt(cats, c, Some(a.id), depth - 1);
      ScanCompleteVia(cats, key, level, path, rank, c, depth, a);
    }
  }

  /** The step of ScanComplete: c is found in the subtree of the child `a` its chain passes through. */
  lemma {:induction false} ScanCompleteVia(cats: seq<Category>, key: Option<int>, level: nat, path: set<int>,
                                           rank: int -> nat, c: Category, depth: nat, a: Category)
    requires Ranked(cats, rank) && SafePath(path, key, rank) && depth > 0
    requires c in cats && a in cats && LooseEq(a.parent, key) && RootedAt(cats, c, Some(a.id), depth - 1)
    ensures Entry(c, level + depth) in Scan(cats, 0, key, level, path)
    decreases depth, 0
  {
    ChildOffPath(cats, a, key, path, rank);
    ScanComplete(cats, Some(a.id), level + 1, path + {a.id}, rank, c, depth - 1);
    ChildLineInScan(cats, a, key, level, path, Entry(c, level + depth));
  }

  /**
   * On acyclic input the outline shows every category whose ancestor chain lies in the input
   * and ends at a root, at the level equal to the length of that chain.
   */
  lemma TreeComplete(cats: seq<Category>, rank: int -> nat, c: Category, depth: nat)
    requires Ranked(cats, rank)
    requires c in cats && RootedAt(cats, c, None, depth)
    ensures Entry(c, depth) in BuildTree(cats)
  {
    ScanComplete(cats, None, 0, {}, rank, c, depth);
  }

  // ---------------------------------------------------------------------------------------
  // Each category at most once

  /** The ids of the input are pairwise distinct, as the table's primary key makes them. */
  ghost predicate DistinctIds(cats: seq<Category>)
  {
    forall i, j :: 0 <= i < j < |cats| ==> cats[i].id != cats[j].id
  }

  /** No two lines of an outline show the same category id. */
  ghost predicate ListedOnce(out: seq<Entry>)
  {
    forall j, m :: 0 <= j < m < |out| ==> out[j].cat.id != out[m].cat.id
  }

  /** The id a key stands for under loose comparison: null reads as 0. */
  function KeyId(key: Option<int>): int
  {
    match key
    case None => 0
    case Some(k) => k
  }

  lemma LooseEqKeyId(c: Category, key: Option<int>)
    ensures LooseEq(c.parent, key) <==> ParentKey(c) == KeyId(key)
  {
  }

  lemma SameIdSameCategory(cats: seq<Category>, p: Category, q: Category)
    requires DistinctIds(cats) && p in cats && q in cats && p.id == q.id
    ensures p == q
  {
    var i :| 0 <= i < |cats| && cats[i] == p;
    var j :| 0 <= j < |cats| && cats[j] == q;
    assert i == j;
  }

  /** Along a chain of parents inside the input, the rank drops by at least one per step. */
  lemma {:induction false} RankAbove(cats: seq<Category>, rank: int -> nat, c: Category, key: Option<int>, d: nat)
    requires Ranked(cats, rank) && c in cats && RootedAt(cats, c, key, d)
    ensures rank(c.id) > rank(KeyId(key)) + d
    decreases d
  {
    if d == 0 {
      LooseEqKeyId(c, key);
    } else {
      var p :| p in cats && LooseEq(c.parent, Some(p.id)) && RootedAt(cats, p, key, d - 1);
      RankAbove(cats, rank, p, key, d - 1);
      LooseEqParentKey(c, p.id);
    }
  }

  /** With distinct ids a category has one ancestor at each distance. */
  lemma {:induction false} AncestorUnique(cats: seq<Category>, c: Category, x: int, y: int, d: nat)
    requires DistinctIds(cats)
    requires RootedAt(cats, c, Some(x), d) && RootedAt(cats, c, Some(y), d)
    ensures x == y
    decreases d
  {
    LooseEqParentKey(c, x);
    LooseEqParentKey(c, y);
    if d > 0 {
      var p :| p in cats && LooseEq(c.parent, Some(p.id)) && RootedAt(cats, p, Some(x), d - 1);
      var q :| q in cats && LooseEq(c.parent, Some(q.id)) && RootedAt(cats, q, Some(y), d - 1);
      LooseEqParentKey(c, p.id);
      LooseEqParentKey(c, q.id);
      SameIdSameCategory(cats, p, q);
      AncestorUnique(cats, p, x, y, d - 1);
    }
  }

  /** On acyclic input with distinct ids a category reaches a key along one chain length only. */
  lemma {:induction false} DepthUnique(cats: seq<Category>, rank: int -> nat, c: Category, key: Option<int>, d1: nat, d2: nat)
    requires Ranked(cats, rank) && DistinctIds(cats) && c in cats
    requires RootedAt(cats, c, key, d1) && RootedAt(cats, c, key, d2)
    ensures d1 == d2
    decreases d1 + d2
  {
    if d1 > 0 && d2 > 0 {
      var p :| p in cats && LooseEq(c.parent, Some(p.id)) && RootedAt(cats, p, key, d1 - 1);
      var q :| q in cats && LooseEq(c.parent, Some(q.id)) && RootedAt(cats, q, key, d2 - 1);
      LooseEqParentKey(c, p.id);
      LooseEqParentKey(c, q.id);
      SameIdSameCategory(cats, p, q);
      DepthUnique(cats, rank, p, key, d1 - 1, d2 - 1);
    } else if d1 != d2 {
      var d := if d1 == 0 then d2 else d1;
      var p :| p in cats && LooseEq(c.parent, Some(p.id)) && RootedAt(cats, p, key, d - 1);
      LooseEqKeyId(c, key);
      LooseEqParentKey(c, p.id);
      RankAbove(cats, rank, p, key, d - 1);
      assert false;
    }
  }

  /** A line of a scan is an input category whose chain reaches the key in as many steps as it is indented. */
  lemma ScanRooted(cats: seq<Category>, key: Option<int>, level: nat, path: set<int>, e: Entry)
    requires e in Scan(cats, 0, key, level, path)
    ensures e.cat in cats && e.level >= level && RootedAt(cats, e.cat, key, e.level - level)
  {
    var out := Scan(cats, 0, key, level, path);
    ScanIsOutline(cats, 0, key, level, path);
    RootedFromOutline(cats, out, key, level);
    var j :| 0 <= j < |out| && out[j] == e;
  }

  /** A line of an unguarded block is its head, or a category whose chain reaches the head. */
  lemma BlockUnder(cats: seq<Category>, i: nat, key: Option<int>, level: nat, path: set<int>, e: Entry)
    requires i < |cats| && cats[i].id !in path
    requires e in Block(cats, i, key, level, path)
    ensures e.level >= level
    ensures e.level == level ==> e.cat == cats[i]
    ensures e.level > level ==> RootedAt(cats, e.cat, Some(cats[i].id), e.level - level - 1)
  {
    var c := cats[i];
    BlockUnfold(cats, i, key, level, path);
    if e != Entry(c, level) {
      ScanRooted(cats, Some(c.id), level + 1, path + {c.id}, e);
    }
  }

  /** Every line of a scan comes from the block of one of the categories scanned. */
  lemma {:induction false} ScanSplit(cats: seq<Category>, i: nat, key: Option<int>, level: nat, path: set<int>, f: Entry)
    requires i <= |cats| && f in Scan(cats, i, key, level, path)
    ensures exists k :: i <= k < |cats| && f in Block(cats, k, key, level, path)
    decreases |cats| - i
  {
    if f !in Block(cats, i, key, level, path) {
      ScanSplit(cats, i + 1, key, level, path, f);
    }
  }

  lemma ListedOnceAppend(a: seq<Entry>, b: seq<Entry>)
    requires ListedOnce(a) && ListedOnce(b)
    requires forall e, f :: e in a && f in b ==> e.cat.id != f.cat.id
    ensures ListedOnce(a + b)
  {
    forall j, m | 0 <= j < m < |a + b|
      ensures (a + b)[j].cat.id != (a + b)[m].cat.id
    {
      if m < |a| {
      } else if j >= |a| {
        assert (a + b)[j] == b[j - |a|] && (a + b)[m] == b[m - |a|];
      } else {
        assert (a + b)[j] in a && (a + b)[m] in b;
      }
    }
  }

  /** The block of category i and the blocks of the categories after it share no category. */
  lemma BlocksApart(cats: seq<Category>, rank: int -> nat, i: nat, key: Option<int>, level: nat, path: set<int>,
                    e: Entry, f: Entry)
    requires Ranked(cats, rank) && DistinctIds(cats) && SafePath(path, key, rank)
    requires i + 1 <= |cats| && e in Block(cats, i, key, level, path) && f in Scan(cats, i + 1, key, level, path)
    ensures e.cat.id != f.cat.id
  {
    ScanSplit(cats, i + 1, key, level, path, f);
    var k :| i + 1 <= k < |cats| && f in Block(cats, k, key, level, path);
    ChildOffPath(cats, cats[i], key, path, rank);
    ChildOffPath(cats, cats[k], key, path, rank);
    BlockUnder(cats, i, key, level, path, e);
    BlockUnder(cats, k, key, level, path, f);
    BlockInScan(cats, 0, i, key, level, path);
    BlockInScan(cats, 0, k, key, level, path);
    ScanRooted(cats, key, level, path, e);
    ScanRooted(cats, key, level, path, f);
    LinesApart(cats, rank, key, level, i, k, e, f);
  }

  /** Two lines reached from the same key through the heads of two different input rows show different categories. */
  lemma LinesApart(cats: seq<Category>, rank: int -> nat, key: Option<int>, level: nat, i: nat, k: nat, e: Entry, f: Entry)
    requires Ranked(cats, rank) && DistinctIds(cats) && i < k < |cats|
    requires e.cat in cats && e.level >= level && RootedAt(cats, e.cat, key, e.level - level)
    requires f.cat in cats && f.level >= level && RootedAt(cats, f.cat, key, f.level - level)
    requires e.level == level ==> e.cat == cats[i]
    requires e.level > level ==> RootedAt(cats, e.cat, Some(cats[i].id), e.level - level - 1)
    requires f.level == level ==> f.cat == cats[k]
    requires f.level > level ==> RootedAt(cats, f.cat, Some(cats[k].id), f.level - level - 1)
    ensures e.cat.id != f.cat.id
  {
    if e.cat.id == f.cat.id {
      SameIdSameCategory(cats, e.cat, f.cat);
      HeadsAgree(cats, rank, e.cat, key, cats[i], cats[k], e.level - level, f.level - level);
      assert false;
    }
  }

  /**
   * A category below two heads, each reached from the same key, has reached it through the
   * same head: on acyclic input with distinct ids the heads have the same id.
   */
  lemma HeadsAgree(cats: seq<Category>, rank: int -> nat, c: Category, key: Option<int>, a: Category, b: Category,
                   d1: nat, d2: nat)
    requires Ranked(cats, rank) && DistinctIds(cats) && c in cats
    requires RootedAt(cats, c, key, d1) && RootedAt(cats, c, key, d2)
    requires d1 == 0 ==> c == a
    requires d1 > 0 ==> RootedAt(cats, c, Some(a.id), d1 - 1)
    requires d2 == 0 ==> c == b
    requires d2 > 0 ==> RootedAt(cats, c, Some(b.id), d2 - 1)
    ensures a.id == b.id
  {
    DepthUnique(cats, rank, c, key, d1, d2);
    if d1 > 0 {
      AncestorUnique(cats, c, a.id, b.id, d1 - 1);
    }
  }

  lemma {:induction false} ScanListedOnce(cats: seq<Category>, rank: int -> nat, i: nat, key: Option<int>, level: nat, path: set<int>)
    requires Ranked(cats, rank) && DistinctIds(cats) && SafePath(path, key, rank) && i <= |cats|
    ensures ListedOnce(Scan(cats, i, key, level, path))
    decreases Ids(cats) - path, |cats| - i
  {
    if i < |cats| {
      var a := Block(cats, i, key, level, path);
      var b := Scan(cats, i + 1, key, level, path);
      BlockListedOnce(cats, rank, i, key, level, path);
      ScanListedOnce(cats, rank, i + 1, key, level, path);
      forall e, f | e in a && f in b
        ensures e.cat.id != f.cat.id
      {
        BlocksApart(cats, rank, i, key, level, path, e, f);
      }
      ListedOnceAppend(a, b);
    }
  }

  lemma {:induction false} BlockListedOnce(cats: seq<Category>, rank: int -> nat, i: nat, key: Option<int>, level: nat, path: set<int>)
    requires Ranked(cats, rank) && DistinctIds(cats) && SafePath(path, key, rank) && i < |cats|
    ensures ListedOnce(Block(cats, i, key, level, path))
    decreases Ids(cats) - path, |cats| - i, 0
  {
    var c := cats[i];
    if LooseEq(c.parent, key) {
      ChildOffPath(cats, c, key, path, rank);
      assert c.id in Ids(cats) - path;
      var sub := Scan(cats, 0, Some(c.id), level + 1, path + {c.id});
      ScanListedOnce(cats, rank, 0, Some(c.id), level + 1, path + {c.id});
      HeadNotBelow(cats, rank, c.id, level + 1, path + {c.id});
      BlockUnfold(cats, i, key, level, path);
      ListedOnceAppend([Entry(c, level)], sub);
    }
  }

  /** On acyclic input a category is never among the lines below itself. */
  lemma HeadNotBelow(cats: seq<Category>, rank: int -> nat, id: int, level: nat, path: set<int>)
    requires Ranked(cats, rank)
    ensures forall f :: f in Scan(cats, 0, Some(id), level, path) ==> f.cat.id != id
  {
    forall f | f in Scan(cats, 0, Some(id), level, path)
      ensures f.cat.id != id
    {
      ScanRooted(cats, Some(id), level, path, f);
      RankAbove(cats, rank, f.cat, Some(id), f.level - level);
    }
  }

  /**
   * On acyclic input with distinct ids, a category whose chain reaches a root is on exactly one
   * line of the outline, at the level equal to the length of that chain.
   */
  lemma TreeShowsOnce(cats: seq<Category>, rank: int -> nat, c: Category, depth: nat)
    requires Ranked(cats, rank) && DistinctIds(cats)
    requires c in cats && RootedAt(cats, c, None, depth)
    ensures ListedOnce(BuildTree(cats))
    ensures exists j :: 0 <= j < |BuildTree(cats)| && BuildTree(cats)[j] == Entry(c, depth)
              && forall m :: 0 <= m < |BuildTree(cats)| && m != j ==> BuildTree(cats)[m].cat.id != c.id
  {
    var out := BuildTree(cats);
    TreeComplete(cats, rank, c, depth);
    ScanListedOnce(cats, rank, 0, None, 0, {});
    var j :| 0 <= j < |out| && out[j] == Entry(c, depth);
    assert forall m :: 0 <= m < |out| && m != j ==> out[m].cat.id != c.id;
  }

  /** The example hierarchy: 1 is a root, 2 and 3 sit under 1, and 4 under 2. */
  function ExampleCats(): seq<Category>
  {
    [Category(1, "A", None, "", true), Category(2, "B", Some(1), "", true),
     Category(3, "C", Some(1), "", true), Category(4, "D", Some(2), "", true)]
  }

  lemma ExampleLeaves()
    ensures Scan(ExampleCats(), 0, Some(4), 3, {1, 2, 4}) == []
    ensures Scan(ExampleCats(), 0, Some(3), 2, {1, 3}) == []
  {
    var cats := ExampleCats();
    assert Scan(cats, 3, Some(4), 3, {1, 2, 4}) == [];
    assert Scan(cats, 1, Some(4), 3, {1, 2, 4}) == [];
    assert Scan(cats, 3, Some(3), 2, {1, 3}) == [];
    assert Scan(cats, 1, Some(3), 2, {1, 3}) == [];
  }

  lemma ExampleUnderTwo()
    ensures Scan(ExampleCats(), 0, Some(2), 2, {1, 2}) == [Entry(ExampleCats()[3], 2)]
  {
    var cats := ExampleCats();
    ExampleLeaves();
    assert {1, 2} + {4} == {1, 2, 4};
    assert Block(cats, 3, Some(2), 2, {1, 2}) == [Entry(cats[3], 2)];
    assert Scan(cats, 3, Some(2), 2, {1, 2}) == [Entry(cats[3], 2)];
    assert Scan(cats, 1, Some(2), 2, {1, 2}) == [Entry(cats[3], 2)];
  }

  lemma ExampleUnderOne()
    ensures Scan(ExampleCats(), 0, Some(1), 1, {1}) ==
            [Entry(ExampleCats()[1], 1), Entry(ExampleCats()[3], 2), Entry(ExampleCats()[2], 1)]
  {
    var cats := ExampleCats();
    ExampleLeaves();
    ExampleUnderTwo();
    assert {1} + {2} == {1, 2} && {1} + {3} == {1, 3};
    assert Scan(cats, 3, Some(1), 1, {1}) == [];
    assert Block(cats, 2, Some(1), 1, {1}) == [Entry(cats[2], 1)];
    assert Block(cats, 1, Some(1), 1, {1}) == [Entry(cats[1], 1), Entry(cats[3], 2)];
    assert Scan(cats, 1, Some(1), 1, {1}) == [Entry(cats[1], 1), Entry(cats[3], 2), Entry(cats[2], 1)];
  }

  /** Only the first example category is a root. */
  lemma ExampleOneRoot()
    ensures Scan(ExampleCats(), 1, None, 0, {}) == []
  {
    var cats := ExampleCats();
    var none: set<int> := {};
    assert Scan(cats, 4, None, 0, none) == [];
    assert Block(cats, 3, None, 0, none) == [];
    assert Block(cats, 2, None, 0, none) == [];
    assert Block(cats, 1, None, 0, none) == [];
  }

  /** The outline of the example hierarchy is 1, 2, 4, 3 at levels 0, 1, 2, 1. */
  lemma ExampleTree()
    ensures BuildTree(ExampleCats()) ==
            [Entry(ExampleCats()[0], 0), Entry(ExampleCats()[1], 1), Entry(ExampleCats()[3], 2), Entry(ExampleCats()[2], 1)]
  {
    ExampleRootScan();
    ExampleRootOutline();
  }

  /** The first category's block is the whole outline. */
  lemma ExampleRootOutline()
    ensures Block(ExampleCats(), 0, None, 0, {}) ==
            [Entry(ExampleCats()[0], 0), Entry(ExampleCats()[1], 1), Entry(ExampleCats()[3], 2), Entry(ExampleCats()[2], 1)]
  {
    ExampleRootBlock();
    ExampleUnderOne();
  }

  /** The top-level scan of the example is the first category's block alone. */
  lemma ExampleRootScan()
    ensures Scan(ExampleCats(), 0, None, 0, {}) == Block(ExampleCats(), 0, None, 0, {})
  {
    var cats := ExampleCats();
    var none: set<int> := {};
    ExampleOneRoot();
    assert Scan(cats, 0, None, 0, none) == Block(cats, 0, None, 0, none) + Scan(cats, 1, None, 0, none);
    assert Block(cats, 0, None, 0, none) + [] == Block(cats, 0, None, 0, none);
  }

  lemma ExampleRootBlock()
    ensures Block(ExampleCats(), 0, None, 0, {}) == [Entry(ExampleCats()[0], 0)] + Scan(ExampleCats(), 0, Some(1), 1, {1})
  {
    var none: set<int> := {};
    assert none + {1} == {1};
    BlockUnfold(ExampleCats(), 0, None, 0, none);
  }

  /** The first name of a category with this id, as the parent column's lookup loop finds it. */
  function FirstNameWithId(cats: seq<Category>, id: int): (r: Option<string>)
    ensures r.None? <==> forall k :: 0 <= k < |cats| ==> cats[k].id != id
    ensures r.Some? ==> exists k :: 0 <= k < |cats| && cats[k].id == id && cats[k].name == r.value &&
                                    forall m :: 0 <= m < k ==> cats[m].id != id
  {
    if cats == [] then None
    else if cats[0].id == id then Some(cats[0].name)
    else
      var r := FirstNameWithId(cats[1..], id);
      assert forall k :: 1 <= k < |cats| ==> cats[k] == cats[1..][k - 1];
      if r.Some? then
        var k :| 0 <= k < |cats[1..]| && cats[1..][k].id == id && cats[1..][k].name == r.value &&
                 forall m :: 0 <= m < k ==> cats[1..][m].id != id;
        assert cats[k + 1].id == id && forall m :: 0 <= m < k + 1 ==> cats[m].id != id;
        r
      else r
  }

  /**
   * The parent column: an em dash when the parent id is null or 0, the name of the first loaded
   * category with that id, or 'Unknown' when none is loaded.
   */
  function ParentLabel(cats: seq<Category>, c: Category): (shown: string)
    ensures ParentKey(c) == 0 ==> shown == "\U{2014}"
    ensures ParentKey(c) != 0 && (forall k :: 0 <= k < |cats| ==> cats[k].id != ParentKey(c)) ==> shown == "Unknown"
    ensures ParentKey(c) != 0 && (exists k :: 0 <= k < |cats| && cats[k].id == ParentKey(c)) ==>
              exists k :: 0 <= k < |cats| && cats[k].id == ParentKey(c) && cats[k].name == shown
  {
    if ParentKey(c) == 0 then "\U{2014}"
    else match FirstNameWithId(cats, ParentKey(c))
      case Some(n) => n
      case None => "Unknown"
  }

  /**
   * The parent_id field as add_category and edit_category read it: a falsy field ("" or "0", or
   * a missing one, posted as "") is null; any other value is its `(int)` cast, `asInt`.
   */
  function PostedParent(posted: string, asInt: int): (r: Option<int>)
    ensures r.None? <==> !Truthy(posted)
    ensures r.Some? ==> r.value == asInt
  {
    if Truthy(posted) then Some(asInt) else None
  }

  /**
   * An empty field and "0" are both stored as null, whatever the cast gives; "00" is truthy, so
   * it is stored as parent 0, which loose comparison still reads as a root.
   */
  lemma PostedParentCases(asInt: int)
    ensures PostedParent("", asInt) == None && PostedParent("0", asInt) == None
    ensures PostedParent("00", 0) == Some(0) && LooseEq(PostedParent("00", 0), None)
  {
    assert "00" != "0";
  }

  /**
   * add_category: insert the row with the trimmed name and description and the parsed parent;
   * `parentCast` is the `(int)` cast of the posted parent_id.
   */
  method AddCategory(db: Database, newId: int, name: string, parentPosted: string, parentCast: int, description: string)
    requires newId !in db.categories
    modifies db`categories
    ensures db.categories == old(db.categories)[newId := Category(newId, Trim(name), PostedParent(parentPosted, parentCast),
                                                                 Trim(description), db.categoryActiveDefault)]
    ensures !Truthy(parentPosted) ==> db.categories[newId].parent == None
    ensures Truthy(parentPosted) ==> db.categories[newId].parent == Some(parentCast)
  {
    var parent := PostedParent(parentPosted, parentCast);
    db.categories := db.categories[newId := Category(newId, Trim(name), parent, Trim(description), db.categoryActiveDefault)];
  }

  /**
   * edit_category: refused, with nothing written, when the parsed parent loosely equals the
   * category's own id (only direct self-reference is checked; longer cycles are accepted; an
   * empty parent equals id 0); otherwise the row, if it exists, gets the trimmed name and
   * description and the parsed parent.
   */
  method EditCategory(db: Database, id: int, name: string, parentPosted: string, parentCast: int, description: string)
    returns (r: Outcome)
    modifies db`categories
    ensures LooseEq(PostedParent(parentPosted, parentCast), Some(id)) ==>
              r == Failed("A category cannot be its own parent.") && db.categories == old(db.categories)
    ensures !Truthy(parentPosted) ==> (r.Failed? <==> id == 0)
    ensures Truthy(parentPosted) ==> (r.Failed? <==> parentCast == id)
    ensures !LooseEq(PostedParent(parentPosted, parentCast), Some(id)) ==> r == Done
    ensures r == Done && id in old(db.categories) ==>
              db.categories == old(db.categories)[id := old(db.categories)[id].(name := Trim(name),
                                 parent := PostedParent(parentPosted, parentCast), description := Trim(description))]
    ensures id !in old(db.categories) ==> db.categories == old(db.categories)
  {
    var parent := PostedParent(parentPosted, parentCast);
    if LooseEq(parent, Some(id)) {
      r := Failed("A category cannot be its own parent.");
    } else {
      if id in db.categories {
        db.categories := db.categories[id := db.categories[id].(name := Trim(name), parent := parent, description := Trim(description))];
      }
      r := Done;
    }
  }

  /** The table after deactivate_category(id): the row itself and the rows whose parent_id is id. */
  function Deactivated(table: map<int, Category>, id: int): (t: map<int, Category>)
    ensures t.Keys == table.Keys
    ensures forall k :: k in t ==> t[k] == (if k == id || table[k].parent == Some(id) then table[k].(active := false) else table[k])
  {
    map k | k in table :: if k == id || table[k].parent == Some(id) then table[k].(active := false) else table[k]
  }

  /** deactivate_category: the category and its direct children become inactive. */
  method DeactivateCategory(db: Database, id: int)
    modifies db`categories
    ensures db.categories == Deactivated(old(db.categories), id)
  {
    db.categories := Deactivated(db.categories, id);
  }

  /** reactivate_category: only the named category becomes active again. */
  method ReactivateCategory(db: Database, id: int)
    modifies db`categories
    ensures id in old(db.categories) ==> db.categories == old(db.categories)[id := old(db.categories)[id].(active := true)]
    ensures id !in old(db.categories) ==> db.categories == old(db.categories)
  {
    if id in db.categories {
      db.categories := db.categories[id := db.categories[id].(active := true)];
    }
  }

  /**
   * Deactivation cascades one level only: a grandchild (parent is a child of id, not id itself)
   * keeps its active flag, and so does every row that is neither id nor a child of id.
   */
  lemma DeactivationIsOneLevel(table: map<int, Category>, id: int, g: int)
    requires g in table && g != id && table[g].parent != Some(id)
    ensures Deactivated(table, id)[g] == table[g]
  {
  }

  /** Deactivating 1 in the hierarchy 1, 2 and 3 under 1, 4 under 2 leaves 4 active. */
  lemma DeactivationExample()
    ensures
      var t := map[1 := Category(1, "A", None, "", true), 2 := Category(2, "B", Some(1), "", true),
                   3 := Category(3, "C", Some(1), "", true), 4 := Category(4, "D", Some(2), "", true)];
      var d := Deactivated(t, 1);
      !d[1].active && !d[2].active && !d[3].active && d[4].active
  {
  }
}
