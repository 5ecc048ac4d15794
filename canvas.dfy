/**
 * The ZoomableCanvas panel state that the items-changed handlers and the realization driver work
 * on: the RealizedItems list of item ids, the spatial index the panel queries (one the items source
 * provides, or the panel's own PrivateSpatialIndex), and the viewport the realization rectangle
 * comes from. RealizeItem and VirtualizeItem calls into the base panel are recorded in calls.
 */
module Canvas {
  import opened Options
  import opened Geometry
  import opened SpatialIndex
  import opened Realization
  import Viewport

  /**
   * Where the canvas gets its spatial index: none (not virtualizing, or not an items host), the
   * items source itself (an ISpatialItemsSource, whose Query is given as a function), or a
   * PrivateSpatialIndex the canvas keeps over the plain items collection.
   */
  datatype IndexSource = NoIndex | External(query: Rect -> seq<int>) | Private

  /**
   * What a query of the spatial index for rect, cut to limit ids, answers: nothing without an index,
   * the first limit ids of the items source's answer, or the first limit ids of the private index's
   * answer, which is the Index of every item the quad tree reports, each once, in the tree's order.
   */
  ghost predicate Answers(source: IndexSource, index: PrivateSpatialIndex?, limit: nat, vq: seq<int>, rect: Rect)
    reads index, if index != null then index.tree.Keys else {}
  {
    match source
    case NoIndex => vq == []
    case External(query) => vq == Viewport.Take(query(rect), limit)
    case Private =>
      && index != null
      && exists found {:trigger Reported(index.tree, rect, found)} ::
           Reported(index.tree, rect, found) && vq == Viewport.Take(IndicesOf(found), limit)
  }

  /** The realization driver's loop count: while (rate-- > 0) runs max(rate, 0) times. */
  function Budget(rate: int): nat
  {
    if rate > 0 then rate else 0
  }

  class ZoomableCanvas {
    var offset: Point
    var scale: real
    var renderSize: Size
    var realizationLimit: nat
    var realizationRate: int
    /** RealizedItems: null exactly when there is no spatial index. */
    var realized: Option<seq<int>>
    var source: IndexSource
    var privateIndex: PrivateSpatialIndex?
    /** The RealizeItem / VirtualizeItem calls made so far, in order. */
    var calls: seq<Action>

    ghost predicate Valid()
      reads this, privateIndex, if privateIndex != null then privateIndex.items else []
    {
      && scale > 0.0 && renderSize.width >= 0.0 && renderSize.height >= 0.0
      && (source.Private? <==> privateIndex != null)
      && (source.NoIndex? <==> realized.None?)
      && (privateIndex != null ==> privateIndex.Valid() && privateIndex.ExtentCached())
    }

    /** The rectangle a virtualizing walk queries: ActualViewbox grown by a tenth on every side. */
    function ViewRect(): (r: Rect)
      reads this
      requires scale > 0.0 && renderSize.width >= 0.0 && renderSize.height >= 0.0
      ensures r.Box? && r.WellFormed()
      ensures ContainsRect(r, Viewport.ActualViewbox(offset, scale, renderSize))
    {
      Viewport.RealizationRect(Viewport.ActualViewbox(offset, scale, renderSize))
    }

    constructor (offset: Point, scale: real, renderSize: Size, limit: nat, rate: int)
      requires scale > 0.0 && renderSize.width >= 0.0 && renderSize.height >= 0.0
      ensures Valid()
      ensures this.offset == offset && this.scale == scale && this.renderSize == renderSize
      ensures realizationLimit == limit && realizationRate == rate
      ensures realized == None && source == NoIndex && privateIndex == null && calls == []
    {
      this.offset := offset;
      this.scale := scale;
      this.renderSize := renderSize;
      realizationLimit := limit;
      realizationRate := rate;
      realized := None;
      source := NoIndex;
      privateIndex := null;
      calls := [];
    }

    /**
     * OnItemsReset: drop the realized list and the index; when the panel virtualizes as an items
     * host, start an empty realized list and take the items source as the index, or, when it is not
     * a spatial source, a fresh private index over itemCount items.
     */
    method OnItemsReset(hosting: bool, spatialSource: Option<Rect -> seq<int>>, itemCount: nat)
      requires scale > 0.0 && renderSize.width >= 0.0 && renderSize.height >= 0.0
      modifies this
      ensures Valid()
      ensures offset == old(offset) && scale == old(scale) && renderSize == old(renderSize)
      ensures realizationLimit == old(realizationLimit) && realizationRate == old(realizationRate)
      ensures calls == old(calls)
      ensures !hosting ==> realized == None && source == NoIndex && privateIndex == null
      ensures hosting ==> realized == Some([])
      ensures hosting && spatialSource.Some? ==> source == External(spatialSource.value) && privateIndex == null
      ensures hosting && spatialSource.None? ==>
        && source == Private && privateIndex != null && fresh(privateIndex)
        && |privateIndex.items| == itemCount && privateIndex.Dense()
        && (forall k :: 0 <= k < itemCount ==> privateIndex.items[k].bounds == Empty)
        && privateIndex.extent == Empty
    {
      realized := None;
      source := NoIndex;
      privateIndex := null;
      if hosting {
        realized := Some([]);
        match spatialSource
        case Some(query) =>
          source := External(query);
        case None =>
          var index := new PrivateSpatialIndex();
          index.Reset(itemCount);
          privateIndex := index;
          source := Private;
      }
    }

    /**
     * OnItemsAdded: count items were inserted at index. The private index makes room for them, and
     * every realized id at or above index moves up by count, node by node, in place.
     */
    method OnItemsAdded(index: int, count: nat) returns (ghost added: seq<SpatialItem>)
      requires Valid()
      requires privateIndex != null ==> 0 <= index <= |privateIndex.items|
      modifies this, privateIndex
      ensures Valid()
      ensures source == old(source) && privateIndex == old(privateIndex) && calls == old(calls)
      ensures offset == old(offset) && scale == old(scale) && renderSize == old(renderSize)
      ensures realizationLimit == old(realizationLimit) && realizationRate == old(realizationRate)
      ensures realized.Some? <==> old(realized).Some?
      ensures realized.Some? ==> realized.value == ShiftAdded(old(realized).value, index, count)
      ensures privateIndex != null ==>
        && privateIndex.items == old(privateIndex.items)[..index] + added + old(privateIndex.items)[index..]
        && |added| == count
        && (forall k :: 0 <= k < count ==> added[k].index == index + k && added[k].bounds == Empty)
    {
      added := [];
      if privateIndex != null {
        added := privateIndex.InsertRange(index, count);
      }
      if realized.Some? {
        var list := ShiftRealizedUp(realized.value, index, count);
        Commit(list, []);
      }
    }

    /**
     * OnItemsRemoved: count items were removed at index. The private index drops them, and the
     * realized list is walked node by node: a node in the removed range is unlinked, a node above
     * it is renumbered down by count.
     */
    method OnItemsRemoved(index: int, count: nat)
      requires Valid()
      requires privateIndex != null ==> 0 <= index && index + count <= |privateIndex.items|
      modifies this, privateIndex, if privateIndex != null then privateIndex.items else []
      ensures Valid()
      ensures source == old(source) && privateIndex == old(privateIndex) && calls == old(calls)
      ensures offset == old(offset) && scale == old(scale) && renderSize == old(renderSize)
      ensures realizationLimit == old(realizationLimit) && realizationRate == old(realizationRate)
      ensures realized.Some? <==> old(realized).Some?
      ensures realized.Some? ==> realized.value == ShiftRemoved(old(realized).value, index, count)
      ensures privateIndex != null ==>
        && privateIndex.items == old(privateIndex.items[..index] + privateIndex.items[index + count..])
        && (old(privateIndex.Dense()) ==> privateIndex.Dense())
    {
      if privateIndex != null {
        privateIndex.RemoveRange(index, count);
      }
      if realized.Some? {
        var list := UnlinkRemoved(realized.value, index, count);
        Commit(list, []);
      }
    }

    /** Store the edited realized list and record the RealizeItem / VirtualizeItem calls made. */
    method Commit(list: seq<int>, acts: seq<Action>)
      requires Valid() && realized.Some?
      modifies this
      ensures Valid()
      ensures realized == Some(list) && calls == old(calls) + acts
      ensures source == old(source) && privateIndex == old(privateIndex)
      ensures offset == old(offset) && scale == old(scale) && renderSize == old(renderSize)
      ensures realizationLimit == old(realizationLimit) && realizationRate == old(realizationRate)
    {
      realized := Some(list);
      calls := calls + acts;
    }

    /**
     * The view query a starting walk enumerates: the index's answer for the realization rectangle,
     * at most RealizationLimit ids. The private index records the rectangle as its last query.
     */
    method QueryView() returns (vq: seq<int>)
      requires Valid()
      modifies privateIndex
      ensures Valid() && Answers(source, privateIndex, realizationLimit, vq, ViewRect())
      ensures privateIndex != null ==>
        && privateIndex.lastQuery == ViewRect()
        && privateIndex.items == old(privateIndex.items) && privateIndex.tree == old(privateIndex.tree)
        && privateIndex.extent == old(privateIndex.extent) && privateIndex.events == old(privateIndex.events)
    {
      var rect := ViewRect();
      match source
      case NoIndex =>
        vq := [];
      case External(query) =>
        vq := Viewport.Take(query(rect), realizationLimit);
      case Private =>
        var ids, found := privateIndex.Query(rect);
        vq := Viewport.Take(ids, realizationLimit);
        assert Reported(privateIndex.tree, rect, found) && vq == Viewport.Take(IndicesOf(found), realizationLimit);
    }

    /**
     * RealizeOverride(items, state): resume the walk saved in state, or start a new one, and move it
     * at most RealizationRate times. The answer is null (None) when the walk finished within the
     * budget, and otherwise the walk to resume at the next frame. With no spatial index, the walk
     * ends at its first move. A new walk queries the index at its first move, not before.
     */
    method RealizeOverride(state: Option<Walk>, pinned: set<int>) returns (next: Option<Walk>, ghost viewQuery: seq<int>)
      requires Valid()
      requires state.Some? && !state.value.Start? ==> realized.Some? && Fits(realized.value, state.value)
      modifies this, privateIndex
      ensures Valid()
      ensures source == old(source) && privateIndex == old(privateIndex)
      ensures offset == old(offset) && scale == old(scale) && renderSize == old(renderSize)
      ensures realizationLimit == old(realizationLimit) && realizationRate == old(realizationRate)
      ensures var w0 := if state.Some? then state.value else Start;
        w0.Start? && realizationRate > 0 ==> Answers(source, privateIndex, realizationLimit, viewQuery, ViewRect())
      ensures var w0 := if state.Some? then state.value else Start;
        old(realized).None? ==>
          && realized == old(realized) && calls == old(calls)
          && next == (if realizationRate > 0 then None else Some(w0))
      ensures var w0 := if state.Some? then state.value else Start;
        old(realized).Some? ==>
          var g := Advance(Enumerator(pinned, viewQuery), viewQuery, old(realized).value, w0, Budget(realizationRate));
          && realized == Some(g.realized) && calls == old(calls) + g.actions
          && next == (if g.finished then None else Some(g.walk))
    {
      var w := if state.Some? then state.value else Start;
      viewQuery := [];
      if realized.None? {
        next := if realizationRate > 0 then None else Some(w);
        return;
      }
      var vq := [];
      if w.Start? && realizationRate > 0 {
        vq := QueryView();
      }
      viewQuery := vq;
      var list, w', acts, finished := MoveBudget(pinned, vq, realized.value, w, realizationRate);
      Commit(list, acts);
      next := if finished then None else Some(w');
    }
  }

  /**
   * The loop of RealizeOverride(items, state): while (rate-- > 0), move the walk, and stop early
   * when MoveNext returns false. Gives the list, the walk, the calls made, and whether it finished.
   */
  method MoveBudget(pinned: set<int>, viewQuery: seq<int>, s0: seq<int>, w0: Walk, rate: int)
    returns (s: seq<int>, w: Walk, acts: seq<Action>, finished: bool)
    requires Fits(s0, w0)
    ensures Advance(Enumerator(pinned, viewQuery), viewQuery, s0, w0, Budget(rate)) == Progress(s, w, acts, finished)
  {
    ghost var step := Enumerator(pinned, viewQuery);
    s, w, acts, finished := s0, w0, [], false;
    var r := rate;
    ghost var n: nat := 0;
    while r > 0
      invariant n + Budget(r) == Budget(rate)
      invariant Advance(step, viewQuery, s0, w0, n) == Progress(s, w, acts, false)
    {
      r := r - 1;
      var m := MoveNext(s, pinned, viewQuery, w);
      assert m == step(s, w);
      if !m.more {
        finished, w := true, Done;
        AdvanceStaysFinished(step, viewQuery, s0, w0, n + 1, Budget(rate));
        return;
      }
      s, w, acts := m.realized, m.walk, acts + m.actions;
      n := n + 1;
    }
  }

  /** OnItemsAdded's pass over the realized list: each id at or above index grows by count, in place. */
  method ShiftRealizedUp(list: seq<int>, index: int, count: nat) returns (r: seq<int>)
    ensures r == ShiftAdded(list, index, count)
  {
    r := list;
    var i := 0;
    while i < |r|
      invariant 0 <= i <= |r| == |list|
      invariant forall k :: 0 <= k < i ==> r[k] == ShiftUp(list[k], index, count)
      invariant forall k :: i <= k < |r| ==> r[k] == list[k]
    {
      if r[i] >= index {
        r := r[i := r[i] + count];
      }
      i := i + 1;
    }
  }

  /**
   * OnItemsRemoved's pass over the realized list. The cursor j is the position of the i-th original
   * node: a node in [index, index + count) is unlinked, a node above is renumbered down by count.
   */
  method UnlinkRemoved(list: seq<int>, index: int, count: nat) returns (r: seq<int>)
    ensures r == ShiftRemoved(list, index, count)
  {
    r := list;
    var i, j := 0, 0;
    ghost var done: seq<int> := [];
    while i < |list|
      invariant 0 <= i <= |list|
      invariant done == ShiftRemoved(list[..i], index, count)
      invariant r == done + list[i..] && j == |done|
    {
      UnlinkStep(list, i, index, count);
      CursorFacts(r, done, list, i);
      var id := r[j];
      if id >= index {
        if id < index + count {
          r := r[..j] + r[j + 1..];
        } else {
          r := r[j := id - count];
          done := done + [id - count];
          j := j + 1;
        }
      } else {
        done := done + [id];
        j := j + 1;
      }
      i := i + 1;
    }
    assert list[..i] == list;
  }

  /** One more node of the original list: what it contributes to the renumbered list. */
  lemma UnlinkStep(list: seq<int>, i: int, index: int, count: nat)
    requires 0 <= i < |list|
    ensures list[i] < index ==>
              ShiftRemoved(list[..i + 1], index, count) == ShiftRemoved(list[..i], index, count) + [list[i]]
    ensures index <= list[i] < index + count ==>
              ShiftRemoved(list[..i + 1], index, count) == ShiftRemoved(list[..i], index, count)
    ensures index + count <= list[i] ==>
              ShiftRemoved(list[..i + 1], index, count) == ShiftRemoved(list[..i], index, count) + [list[i] - count]
  {
    assert list[..i + 1] == list[..i] + [list[i]];
    ShiftRemovedAppend(list[..i], [list[i]], index, count);
    assert ShiftRemoved([list[i]], index, count) ==
      (if list[i] < index then [list[i]] else if list[i] < index + count then [] else [list[i] - count])
      + ShiftRemoved([], index, count);
  }

  /** The cursor sits on the i-th original node, between the finished prefix and the untouched rest. */
  lemma CursorFacts(r: seq<int>, done: seq<int>, list: seq<int>, i: int)
    requires 0 <= i < |list| && r == done + list[i..]
    ensures r[|done|] == list[i]
    ensures r[..|done|] + r[|done| + 1..] == done + list[i + 1..]
    ensures forall v :: r[|done| := v] == done + [v] + list[i + 1..]
  {
    assert list[i..] == [list[i]] + list[i + 1..];
    assert r[..|done|] == done && r[|done| + 1..] == list[i + 1..];
    forall v ensures r[|done| := v] == done + [v] + list[i + 1..] {
      assert r[|done| := v] == done + [v] + list[i + 1..];
    }
  }

  /**
   * The step budget over a walk that RealizeOverride starts, for any list and query: n moves never
   * finish it while n <= |q| and always finish it once n > |q| + |s|, and a finished walk leaves a
   * settled list. On a list and a query without repeats, n moves finish it exactly when the whole
   * walk yields fewer than n times (once per query id and once per node visited behind the query),
   * and a walk finished within the budget has done everything the whole walk does.
   */
  lemma {:induction false} FinishedWithinBudget(s: seq<int>, pinned: set<int>, q: seq<int>, n: nat)
    ensures var g := Advance(Enumerator(pinned, q), q, s, Start, n);
      && (n <= |q| ==> !g.finished)
      && (|q| + |s| < n ==> g.finished)
      && (g.finished ==> Settled(g.realized, q, pinned))
    ensures Distinct(s) && Distinct(q) ==>
      var g := Advance(Enumerator(pinned, q), q, s, Start, n); var rest := Without(s, q);
      && (g.finished <==> |q| + |rest| < n)
      && (g.finished ==> g.realized == q + Survivors(rest, pinned) && g.actions == Realizations(q, s) + Evictions(rest, pinned))
  {
    AdvanceFinishes(Enumerator(pinned, q), q, s, Start, n);
    WalkStart(s, pinned, q);
    if Distinct(s) && Distinct(q) {
      WalkResult(s, pinned, q);
    }
  }

  /** Once finished, more budget changes nothing. */
  lemma {:induction false} AdvanceStaysFinished(step: Stepper, viewQuery: seq<int>, s: seq<int>, w: Walk, n: nat, n': nat)
    requires Steps(step, viewQuery) && Fits(s, w) && n <= n' && Advance(step, viewQuery, s, w, n).finished
    ensures Advance(step, viewQuery, s, w, n') == Advance(step, viewQuery, s, w, n)
    decreases n'
  {
    if n' > n {
      AdvanceStaysFinished(step, viewQuery, s, w, n, n' - 1);
    }
  }
}
