/**
 * ZoomableCanvas.PrivateSpatialIndex: the spatial index the canvas builds for an items collection
 * that does not bring its own. It keeps the items in collection order, each with its position
 * (Index) and its Bounds, and a priority quad tree of the same item objects. The quad tree is
 * modelled by what it holds: a map from item to the bounds and priority it was inserted with.
 */
module SpatialIndex {
  import opened Geometry

  /** PrivateSpatialIndex.SpatialItem. The list and the quad tree share these objects. */
  class SpatialItem {
    var index: int
    var bounds: Rect

    constructor ()
      ensures index == -1 && bounds == Empty
    {
      index := -1;
      bounds := Empty;
    }
  }

  datatype Priority = Finite(value: real) | Infinite

  /** The quad-tree priority of an item: +infinity when its bounds are empty, width + height otherwise. */
  function PriorityOf(r: Rect): (p: Priority)
    ensures p.Infinite? <==> r.Empty?
    ensures r.Box? && r.WellFormed() ==> p.value >= 0.0
  {
    if r.Empty? then Infinite else Finite(r.width + r.height)
  }

  /** What the quad tree stores with an item. */
  datatype Placement = Placement(bounds: Rect, priority: Priority)

  /**
   * The quad tree's intersection test: items whose bounds are not known yet (empty) are reported
   * by every query, so that they get realized and measured.
   */
  predicate Hit(bounds: Rect, query: Rect)
  {
    bounds.Empty? || Intersects(bounds, query)
  }

  /** The items a query of the quad tree reports. */
  function Hits(tree: map<SpatialItem, Placement>, query: Rect): set<SpatialItem>
  {
    set o | o in tree && Hit(tree[o].bounds, query)
  }

  /** The quad tree after each item of block is inserted, in order, with empty bounds and infinite priority. */
  function Placed(tree: map<SpatialItem, Placement>, block: seq<SpatialItem>): map<SpatialItem, Placement>
  {
    if block == [] then tree else Placed(tree, block[..|block| - 1])[block[|block| - 1] := Placement(Empty, Infinite)]
  }

  /** Placing a block adds exactly its items, each with empty bounds, and keeps every other entry. */
  lemma {:induction false} PlacedFacts(tree: map<SpatialItem, Placement>, block: seq<SpatialItem>)
    ensures forall o :: o in Placed(tree, block) <==> o in tree || o in block
    ensures forall o :: o in tree && o !in block ==> Placed(tree, block)[o] == tree[o]
    ensures forall k :: 0 <= k < |block| ==> Placed(tree, block)[block[k]] == Placement(Empty, Infinite)
    decreases |block|
  {
    if block != [] {
      var front := block[..|block| - 1];
      PlacedFacts(tree, front);
      assert block == front + [block[|block| - 1]];
    }
  }

  /** A block of items inserted into the list at position index. */
  datatype Insertion = Insertion(index: int, block: seq<SpatialItem>)

  /** An item held by the tree under bounds b is reported by every query that b hits. */
  lemma HitsHolds(tree: map<SpatialItem, Placement>, o: SpatialItem, b: Rect)
    requires o in tree && tree[o].bounds == b
    ensures forall q :: Hit(b, q) ==> o in Hits(tree, q)
  {
  }

  datatype Event = ExtentChanged | QueryInvalidated

  /** The bounds of a list of items, in order. */
  ghost function BoundsOf(xs: seq<SpatialItem>): (r: seq<Rect>)
    reads xs
    ensures |r| == |xs| && forall j :: 0 <= j < |xs| ==> r[j] == xs[j].bounds
  {
    if xs == [] then [] else [xs[0].bounds] + BoundsOf(xs[1..])
  }

  /** The items at positions lo .. hi - 1. */
  function Slice(xs: seq<SpatialItem>, lo: int, hi: int): set<SpatialItem>
  {
    set j | 0 <= j < |xs| && lo <= j < hi :: xs[j]
  }

  predicate DistinctItems(xs: seq<SpatialItem>)
  {
    forall i, j :: 0 <= i < j < |xs| ==> xs[i] != xs[j]
  }

  /** found lists every item the quad tree reports for query, each exactly once, in some order. */
  predicate Reported(tree: map<SpatialItem, Placement>, query: Rect, older found: seq<SpatialItem>)
  {
    && (forall k :: 0 <= k < |found| ==> found[k] in tree)
    && DistinctItems(found) && (set k | 0 <= k < |found| :: found[k]) == Hits(tree, query)
  }

  /** The Index of each item of xs, in order. */
  ghost function IndicesOf(xs: seq<SpatialItem>): (ids: seq<int>)
    reads xs
    ensures |ids| == |xs| && forall k :: 0 <= k < |xs| ==> ids[k] == xs[k].index
  {
    if xs == [] then [] else [xs[0].index] + IndicesOf(xs[1..])
  }

  /**
   * Every listed item is one object, held by the quad tree under its current bounds; the tree's
   * priorities follow the bounds.
   */
  ghost predicate Indexed(xs: seq<SpatialItem>, tree: map<SpatialItem, Placement>)
    reads xs
  {
    && DistinctItems(xs)
    && (forall j :: 0 <= j < |xs| ==> xs[j] in tree && tree[xs[j]].bounds == xs[j].bounds)
    && (forall o :: o in tree ==> tree[o].bounds.WellFormed() && tree[o].priority == PriorityOf(tree[o].bounds))
  }

  class PrivateSpatialIndex {
    var items: seq<SpatialItem>
    var tree: map<SpatialItem, Placement>
    /** The cached extent; Empty means "not computed". */
    var extent: Rect
    var lastQuery: Rect
    /** ExtentChanged and QueryInvalidated, in the order the index raises them. */
    var events: seq<Event>

    /**
     * Every listed item is one object, held by the quad tree under its current bounds; the tree's
     * priorities follow the bounds.
     */
    ghost predicate Valid()
      reads this, items
    {
      Indexed(items, tree)
    }

    /** A cached extent (one that is not Empty) is the union of all item bounds. */
    ghost predicate ExtentCached()
      reads this, items
      requires Valid()
    {
      extent.Empty? || extent == UnionAll(Empty, Bounds())
    }

    /** The bounds of the listed items, in list order. */
    ghost function Bounds(): (r: seq<Rect>)
      reads this, items
      requires Valid()
      ensures r == BoundsOf(items) && AllWellFormed(r)
    {
      ItemBoundsWellFormed(items, tree);
      BoundsOf(items)
    }

    /** Ids are dense: the item at position j has Index j. */
    ghost predicate Dense()
      reads this, items
    {
      forall j :: 0 <= j < |items| ==> items[j].index == j
    }

    constructor ()
      ensures Valid() && ExtentCached() && Dense()
      ensures items == [] && tree == map[] && extent == Empty && lastQuery == Empty && events == []
    {
      items := [];
      tree := map[];
      extent := Empty;
      lastQuery := Empty;
      events := [];
    }

    /** The Extent getter: recomputed as the union of all bounds when the cache is empty. */
    method GetExtent() returns (r: Rect)
      requires Valid() && ExtentCached()
      modifies this
      ensures Valid() && ExtentCached()
      ensures r == extent && r == UnionAll(Empty, Bounds())
      ensures items == old(items) && tree == old(tree) && lastQuery == old(lastQuery) && events == old(events)
    {
      if extent.Empty? {
        ghost var bs := Bounds();
        var i := 0;
        while i < |items|
          invariant 0 <= i <= |items|
          invariant items == old(items) && tree == old(tree) && lastQuery == old(lastQuery) && events == old(events)
          invariant extent == UnionAll(Empty, bs[..i])
        {
          assert bs[..i + 1] == bs[..i] + [bs[i]];
          UnionAllSnoc(Empty, bs[..i], bs[i]);
          extent := Union(extent, items[i].bounds);
          i := i + 1;
        }
        assert bs[..i] == bs;
      }
      r := extent;
    }

    /**
     * The indexer setter. New bounds are written to the item and the item is re-placed in the quad
     * tree under them; the cached extent is dropped, ExtentChanged is raised, and QueryInvalidated
     * too when the old or the new bounds meet the last query. Equal bounds change nothing.
     */
    method SetBounds(index: int, value: Rect)
      requires Valid() && ExtentCached() && 0 <= index < |items| && value.WellFormed()
      modifies this, items[index]
      ensures Valid() && ExtentCached()
      ensures items == old(items) && lastQuery == old(lastQuery) && items[index].bounds == value
      ensures items[index].index == old(items[index].index)
      ensures old(items[index].bounds) == value ==>
        tree == old(tree) && extent == old(extent) && events == old(events)
      ensures old(items[index].bounds) != value ==>
        && tree == old(tree)[items[index] := Placement(value, PriorityOf(value))]
        && extent == Empty
        && events == old(events) + [ExtentChanged] +
             (if Intersects(old(items[index].bounds), lastQuery) || Intersects(value, lastQuery) then [QueryInvalidated] else [])
      ensures forall q :: Hit(value, q) ==> items[index] in Hits(tree, q)
    {
      var item := items[index];
      var bounds := item.bounds;
      if bounds != value {
        extent := Empty;
        tree := tree - {item};
        tree := tree[item := Placement(value, PriorityOf(value))];
        item.bounds := value;
        events := events + [ExtentChanged];
        if Intersects(bounds, lastQuery) || Intersects(value, lastQuery) {
          events := events + [QueryInvalidated];
        }
        assert tree == old(tree)[item := Placement(value, PriorityOf(value))];
        SetKeepsValid(index);
      }
      HitsHolds(tree, item, value);
    }

    /** The new state of the indexer setter: the index stays valid. */
    twostate lemma SetKeepsValid(index: int)
      requires old(Valid()) && 0 <= index < |items| && items == old(items)
      requires items[index].bounds.WellFormed()
      requires tree == old(tree)[items[index] := Placement(items[index].bounds, PriorityOf(items[index].bounds))]
      requires forall j :: 0 <= j < |items| && j != index ==> unchanged(items[j])
      ensures Valid()
    {
      forall j | 0 <= j < |items| ensures items[j] in tree && tree[items[j]].bounds == items[j].bounds {
        if j != index {
          assert items[j] != items[index];
        }
      }
    }

    /**
     * Query: remembers the rectangle and reports the Index of every item the quad tree finds, each
     * once, in the tree's (unspecified) order.
     */
    method Query(rect: Rect) returns (ids: seq<int>, ghost found: seq<SpatialItem>)
      requires Valid() && ExtentCached()
      modifies this
      ensures Valid() && ExtentCached()
      ensures lastQuery == rect
      ensures items == old(items) && tree == old(tree) && extent == old(extent) && events == old(events)
      ensures Reported(tree, rect, found) && ids == IndicesOf(found)
    {
      lastQuery := rect;
      var todo := Hits(tree, rect);
      ids := [];
      found := [];
      while todo != {}
        invariant lastQuery == rect
        invariant items == old(items) && tree == old(tree) && extent == old(extent) && events == old(events)
        invariant todo <= Hits(tree, rect)
        invariant forall o :: o in found <==> o in Hits(tree, rect) && o !in todo
        invariant DistinctItems(found) && forall k :: 0 <= k < |found| ==> found[k] in tree
        invariant |ids| == |found| && forall k :: 0 <= k < |ids| ==> ids[k] == found[k].index
        decreases |todo|
      {
        var o :| o in todo;
        ids := ids + [o.index];
        found := found + [o];
        todo := todo - {o};
      }
    }

    /**
     * InsertRange: count new items with Index index, index + 1, ..., empty bounds and infinite
     * priority go into the quad tree and into the list at position index. The items after them
     * keep their Index, so the ids stay dense only when nothing is inserted or the new items are
     * appended at the end. The cached extent stays valid: empty bounds do not change the union.
     */
    method InsertRange(index: int, count: int) returns (ghost added: seq<SpatialItem>)
      requires Valid() && ExtentCached() && 0 <= index <= |items| && count >= 0
      modifies this
      ensures Valid() && ExtentCached()
      ensures |added| == count && items == old(items)[..index] + added + old(items)[index..]
      ensures forall k :: 0 <= k < count ==> fresh(added[k]) && added[k].index == index + k && added[k].bounds == Empty
      ensures tree == Placed(old(tree), added)
      ensures extent == old(extent) && lastQuery == old(lastQuery)
      ensures events == old(events) + [QueryInvalidated]
      ensures old(Dense()) ==> (Dense() <==> count == 0 || index == old(|items|))
    {
      var block := NewItems(index, count);
      items := items[..index] + block + items[index..];
      events := events + [QueryInvalidated];
      added := block;
      InsertKeepsValid(Insertion(index, block));
      if old(Dense()) {
        InsertKeepsDense(Insertion(index, block));
      }
    }

    /** The new state of InsertRange: the index stays valid and a cached extent stays right. */
    twostate lemma InsertKeepsValid(new ins: Insertion)
      requires old(Valid()) && old(ExtentCached()) && 0 <= ins.index <= |old(items)|
      requires items == old(items)[..ins.index] + ins.block + old(items)[ins.index..]
      requires DistinctItems(ins.block)
      requires forall k :: 0 <= k < |ins.block| ==> ins.block[k] !in old(tree) && ins.block[k].bounds == Empty
      requires tree == Placed(old(tree), ins.block)
      requires forall j :: 0 <= j < |old(items)| ==> old(items)[j].bounds == old(items[j].bounds)
      requires extent == old(extent)
      ensures Valid() && ExtentCached()
    {
      var xs := old(items);
      assert BoundsOf(xs) == old(BoundsOf(xs));
      InsertIndexed(xs, ins.block, ins.index, old(tree), tree);
    }

    /** Dense ids stay dense after InsertRange only when the block is empty or appended. */
    twostate lemma InsertKeepsDense(new ins: Insertion)
      requires old(Dense()) && 0 <= ins.index <= |old(items)|
      requires items == old(items)[..ins.index] + ins.block + old(items)[ins.index..]
      requires forall k :: 0 <= k < |ins.block| ==> ins.block[k].index == ins.index + k
      requires forall j :: 0 <= j < |old(items)| ==> old(items)[j].index == old(items[j].index)
      ensures Dense() <==> |ins.block| == 0 || ins.index == |old(items)|
    {
      InsertDense(old(items), ins.block, ins.index);
    }

    /**
     * The loop of InsertRange: count new items numbered from index, each put into the quad tree
     * with empty bounds and infinite priority.
     */
    method NewItems(index: int, count: int) returns (block: seq<SpatialItem>)
      requires count >= 0
      modifies this
      ensures |block| == count && DistinctItems(block)
      ensures forall k :: 0 <= k < count ==> fresh(block[k]) && block[k].index == index + k && block[k].bounds == Empty
      ensures forall k :: 0 <= k < count ==> block[k] !in old(tree)
      ensures tree == Placed(old(tree), block)
      ensures items == old(items)
      ensures forall j :: 0 <= j < |items| ==> items[j].bounds == old(items[j].bounds) && items[j].index == old(items[j].index)
      ensures extent == old(extent) && lastQuery == old(lastQuery) && events == old(events)
    {
      block := [];
      var i := 0;
      while i < count
        invariant 0 <= i <= count && |block| == i
        invariant items == old(items) && extent == old(extent) && lastQuery == old(lastQuery) && events == old(events)
        invariant forall k :: 0 <= k < i ==> fresh(block[k]) && block[k].index == index + k && block[k].bounds == Empty
        invariant DistinctItems(block)
        invariant tree == Placed(old(tree), block)
      {
        var item := new SpatialItem();
        item.index := index + i;
        tree := tree[item := Placement(Empty, Infinite)];
        block := block + [item];
        assert block[..|block| - 1] == block[..i];
        i := i + 1;
      }
    }

    /**
     * RemoveRange: the items at positions index .. index + count - 1 leave the quad tree and the
     * list; every item behind them gets Index = its old position - count, so dense ids stay dense.
     * The cached extent is dropped and ExtentChanged and QueryInvalidated are raised.
     */
    method RemoveRange(index: int, count: int)
      requires Valid() && 0 <= index && 0 <= count && index + count <= |items|
      modifies this, items
      ensures Valid() && ExtentCached()
      ensures items == old(items[..index] + items[index + count..])
      ensures tree == old(tree) - Slice(old(items), index, index + count)
      ensures forall j :: 0 <= j < index ==> items[j].index == old(items[j].index)
      ensures forall j :: index <= j < |items| ==> items[j].index == j
      ensures forall j :: 0 <= j < |items| ==> items[j].bounds == old(items[j + (if j < index then 0 else count)].bounds)
      ensures extent == Empty && lastQuery == old(lastQuery)
      ensures events == old(events) + [ExtentChanged, QueryInvalidated]
      ensures old(Dense()) ==> Dense()
    {
      DetachRange(index, count);
      ghost var xs := items;
      var kept := items[..index] + items[index + count..];
      RemoveIndexed(xs, index, count, old(tree), tree);
      items := kept;
      extent := Empty;
      events := events + [ExtentChanged, QueryInvalidated];
      forall j | 0 <= j < |items|
        ensures items[j].bounds == old(items[j + (if j < index then 0 else count)].bounds)
        ensures j < index ==> items[j].index == old(items[j].index)
        ensures index <= j ==> items[j].index == j
      {
        RemovedAt(xs, index, count, j);
      }
    }

    /**
     * The loop of RemoveRange: the items at positions index .. index + count - 1 leave the quad
     * tree and every item behind them gets Index = its position - count.
     */
    method DetachRange(index: int, count: int)
      requires DistinctItems(items) && 0 <= index && 0 <= count && index + count <= |items|
      modifies this, items
      ensures items == old(items) && extent == old(extent) && lastQuery == old(lastQuery) && events == old(events)
      ensures tree == old(tree) - Slice(items, index, index + count)
      ensures forall j :: 0 <= j < |items| ==> items[j].bounds == old(items[j].bounds)
      ensures forall j :: 0 <= j < index + count ==> items[j].index == old(items[j].index)
      ensures forall j :: index + count <= j < |items| ==> items[j].index == j - count
    {
      var i := index;
      while i < |items|
        invariant index <= i <= |items|
        invariant items == old(items) && extent == old(extent) && lastQuery == old(lastQuery) && events == old(events)
        invariant tree == old(tree) - Slice(items, index, if i < index + count then i else index + count)
        invariant forall j :: 0 <= j < |items| ==> items[j].bounds == old(items[j].bounds)
        invariant forall j :: 0 <= j < |items| && !(index + count <= j < i) ==> items[j].index == old(items[j].index)
        invariant forall j :: index + count <= j < i ==> items[j].index == j - count
      {
        if i < index + count {
          assert Slice(items, index, i + 1) == Slice(items, index, i) + {items[i]};
          tree := tree - {items[i]};
        } else {
          items[i].index := i - count;
        }
        i := i + 1;
      }
    }

    /**
     * Reset: the cache is dropped, the list emptied and count fresh items inserted, then both
     * events are raised. The quad tree is not cleared: entries of the old items stay in it.
     */
    /** The first two steps of Reset: the cached extent is dropped and the list emptied. */
    method Clear()
      requires Valid()
      modifies this
      ensures Valid() && ExtentCached() && Dense()
      ensures items == [] && extent == Empty
      ensures tree == old(tree) && lastQuery == old(lastQuery) && events == old(events)
    {
      extent := Empty;
      items := [];
    }

    method Reset(count: int)
      requires Valid() && count >= 0
      modifies this
      ensures Valid() && ExtentCached() && Dense()
      ensures |items| == count && forall k :: 0 <= k < count ==> fresh(items[k]) && items[k].bounds == Empty
      ensures tree == Placed(old(tree), items)
      ensures extent == Empty && lastQuery == old(lastQuery)
      ensures events == old(events) + [QueryInvalidated, ExtentChanged, QueryInvalidated]
    {
      Clear();
      ghost var added := InsertRange(0, count);
      assert items == added;
      events := events + [ExtentChanged, QueryInvalidated];
    }
  }

  /**
   * Inserting fresh items with empty bounds, each added to the tree, keeps the list indexed and
   * leaves the folded union of the bounds where it was.
   */
  lemma InsertIndexed(xs: seq<SpatialItem>, added: seq<SpatialItem>, index: int,
                      t0: map<SpatialItem, Placement>, t1: map<SpatialItem, Placement>)
    requires Indexed(xs, t0) && 0 <= index <= |xs| && DistinctItems(added)
    requires forall k :: 0 <= k < |added| ==> added[k].bounds == Empty && added[k] !in t0
    requires t1 == Placed(t0, added)
    ensures Indexed(xs[..index] + added + xs[index..], t1)
    ensures AllWellFormed(BoundsOf(xs)) && AllWellFormed(BoundsOf(xs[..index] + added + xs[index..]))
    ensures UnionAll(Empty, BoundsOf(xs[..index] + added + xs[index..])) == UnionAll(Empty, BoundsOf(xs))
  {
    var ys := xs[..index] + added + xs[index..];
    PlacedFacts(t0, added);
    assert forall k, j :: 0 <= k < |added| && 0 <= j < |xs| ==> added[k] != xs[j];
    DistinctInsert(xs, added, index);
    forall j | 0 <= j < |ys| ensures ys[j] in t1 && t1[ys[j]].bounds == ys[j].bounds {
      InsertedAt(xs, added, index, j);
    }
    InsertUnion(xs, added, index, t0);
  }

  /** Which element of the original list or of the inserted block sits at position j. */
  lemma InsertedAt<T>(xs: seq<T>, added: seq<T>, index: int, j: int)
    requires 0 <= index <= |xs| && 0 <= j < |xs| + |added|
    ensures var ys := xs[..index] + added + xs[index..];
      && (j < index ==> ys[j] == xs[j])
      && (index <= j < index + |added| ==> ys[j] == added[j - index])
      && (index + |added| <= j ==> ys[j] == xs[j - |added|])
  {
  }

  /** Inserting a block of distinct elements, none in the list, keeps the list free of repeats. */
  lemma DistinctInsert<T>(xs: seq<T>, added: seq<T>, index: int)
    requires 0 <= index <= |xs|
    requires forall i, j :: 0 <= i < j < |xs| ==> xs[i] != xs[j]
    requires forall i, j :: 0 <= i < j < |added| ==> added[i] != added[j]
    requires forall k, j :: 0 <= k < |added| && 0 <= j < |xs| ==> added[k] != xs[j]
    ensures var ys := xs[..index] + added + xs[index..];
      forall i, j :: 0 <= i < j < |ys| ==> ys[i] != ys[j]
  {
    var ys := xs[..index] + added + xs[index..];
    forall i, j | 0 <= i < j < |ys| ensures ys[i] != ys[j] {
      InsertedAt(xs, added, index, i);
      InsertedAt(xs, added, index, j);
    }
  }

  /** Items with empty bounds inserted into the list leave the folded union where it was. */
  lemma InsertUnion(xs: seq<SpatialItem>, added: seq<SpatialItem>, index: int, t0: map<SpatialItem, Placement>)
    requires Indexed(xs, t0) && 0 <= index <= |xs|
    requires forall k :: 0 <= k < |added| ==> added[k].bounds == Empty
    ensures AllWellFormed(BoundsOf(xs)) && AllWellFormed(BoundsOf(xs[..index] + added + xs[index..]))
    ensures UnionAll(Empty, BoundsOf(xs[..index] + added + xs[index..])) == UnionAll(Empty, BoundsOf(xs))
  {
    ItemBoundsWellFormed(xs, t0);
    BoundsOfInsert(xs, added, index);
    UnionAllInsertEmpties(Empty, BoundsOf(xs), BoundsOf(added), index);
  }

  /** The bounds of a list with a block inserted are the block's bounds inserted into the list's. */
  lemma BoundsOfInsert(xs: seq<SpatialItem>, added: seq<SpatialItem>, index: int)
    requires 0 <= index <= |xs|
    ensures BoundsOf(xs[..index] + added + xs[index..]) == BoundsOf(xs)[..index] + BoundsOf(added) + BoundsOf(xs)[index..]
  {
    var ys := xs[..index] + added + xs[index..];
    var bs := BoundsOf(xs)[..index] + BoundsOf(added) + BoundsOf(xs)[index..];
    assert |BoundsOf(ys)| == |ys| == |bs|;
    forall j | 0 <= j < |ys| ensures BoundsOf(ys)[j] == bs[j] {
      InsertedAt(xs, added, index, j);
      InsertedAt(BoundsOf(xs), BoundsOf(added), index, j);
    }
  }

  /** Which element of the list sits at position j once positions index .. index + count - 1 are cut out. */
  lemma RemovedAt<T>(xs: seq<T>, index: int, count: int, j: int)
    requires 0 <= index && 0 <= count && index + count <= |xs| && 0 <= j < |xs| - count
    ensures (xs[..index] + xs[index + count..])[j] == xs[j + (if j < index then 0 else count)]
  {
  }

  /**
   * Cutting positions index .. index + count - 1 out of an indexed list whose items were removed
   * from the tree keeps the rest indexed.
   */
  lemma RemoveIndexed(xs: seq<SpatialItem>, index: int, count: int,
                      t0: map<SpatialItem, Placement>, t1: map<SpatialItem, Placement>)
    requires 0 <= index && 0 <= count && index + count <= |xs|
    requires DistinctItems(xs)
    requires forall j :: 0 <= j < |xs| ==> xs[j] in t0 && t0[xs[j]].bounds == xs[j].bounds
    requires forall o :: o in t0 ==> t0[o].bounds.WellFormed() && t0[o].priority == PriorityOf(t0[o].bounds)
    requires t1 == t0 - Slice(xs, index, index + count)
    ensures Indexed(xs[..index] + xs[index + count..], t1)
  {
    var kept := xs[..index] + xs[index + count..];
    forall i, j | 0 <= i < j < |kept| ensures kept[i] != kept[j] {
      RemovedAt(xs, index, count, i);
      RemovedAt(xs, index, count, j);
    }
    forall j | 0 <= j < |kept| ensures kept[j] in t1 && t1[kept[j]].bounds == kept[j].bounds {
      var src := j + (if j < index then 0 else count);
      RemovedAt(xs, index, count, j);
      assert xs[src] !in Slice(xs, index, index + count);
    }
  }

  /** Inserting items numbered index, index + 1, ... keeps dense ids dense only at the end of the list. */
  lemma InsertDense(xs: seq<SpatialItem>, added: seq<SpatialItem>, index: int)
    requires 0 <= index <= |xs| && forall j :: 0 <= j < |xs| ==> xs[j].index == j
    requires forall k :: 0 <= k < |added| ==> added[k].index == index + k
    ensures var ys := xs[..index] + added + xs[index..];
      (forall j :: 0 <= j < |ys| ==> ys[j].index == j) <==> |added| == 0 || index == |xs|
  {
    var ys := xs[..index] + added + xs[index..];
    if |added| > 0 && index < |xs| {
      assert ys[index + |added|] == xs[index];
    } else {
      forall j | 0 <= j < |ys| ensures ys[j].index == j {
        if j < index { assert ys[j] == xs[j]; } else if j < index + |added| { assert ys[j] == added[j - index]; } else { assert ys[j] == xs[j - |added|]; }
      }
    }
  }

  lemma ItemBoundsWellFormed(xs: seq<SpatialItem>, tree: map<SpatialItem, Placement>)
    requires forall j :: 0 <= j < |xs| ==> xs[j] in tree && tree[xs[j]].bounds == xs[j].bounds
    requires forall o :: o in tree ==> tree[o].bounds.WellFormed()
    ensures AllWellFormed(BoundsOf(xs))
  {
  }

  /** The bounds of a concatenation of item lists. */
  lemma BoundsOfAppend(a: seq<SpatialItem>, b: seq<SpatialItem>)
    ensures BoundsOf(a + b) == BoundsOf(a) + BoundsOf(b)
  {
    assert |BoundsOf(a + b)| == |BoundsOf(a) + BoundsOf(b)|;
    forall j | 0 <= j < |a + b| ensures BoundsOf(a + b)[j] == (BoundsOf(a) + BoundsOf(b))[j] {
      if j < |a| { assert (a + b)[j] == a[j]; } else { assert (a + b)[j] == b[j - |a|]; }
    }
  }
}
