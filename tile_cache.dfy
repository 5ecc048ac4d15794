/**
 * MultiScaleImageSpatialItemsSource: the items source of the deep-zoom image. Item i is the tile
 * with index i of the tile pyramid. Decoded tile bitmaps are kept in a cache of at most 300 tiles
 * that forgets the oldest tile first. Tiles behind a URI are fetched in the background; changing the
 * current level cancels the fetches requested before it. At deep levels the query first yields
 * widely spaced "dummy" ids, for which the indexer answers null.
 *
 * The tile pyramid (MultiScaleTileSource) is given as functions; image loading and decoding are
 * outside the model: a stream source carries its decoded bitmap, a URI fetch is told what it loaded.
 */
module TileCache {
  import opened Options
  import opened Geometry

  const CacheCapacity: nat := 300
  const MinLevelForWpfBug: int := 18
  const GapBetweenItemsForWpfBug: int := 500000

  /** A tile of the pyramid; the cache is keyed by the tile's string form, which names it uniquely. */
  datatype Tile = Tile(level: int, column: int, row: int)

  /** A decoded bitmap, known only by identity. */
  datatype Bitmap = Bitmap(handle: nat)

  /** What GetTileLayers answers for a tile: a URI to fetch, a stream (here already decoded), or neither. */
  datatype ImageSource = UriSource(uri: string) | StreamSource(decoded: Bitmap) | OtherSource

  /** The parts of MultiScaleTileSource the items source uses. */
  datatype TileSource = TileSource(
    tileFromIndex: int -> Tile,
    tileIndex: Tile -> int,
    layers: Tile -> ImageSource,
    tilesAtLevel: int -> int,
    zoomLimitLevel: int,
    visibleTilesUntilFill: (Rect, int) -> seq<Tile>)

  predicate NoRepeats(s: seq<Tile>)
  {
    forall i, j :: 0 <= i < j < |s| ==> s[i] != s[j]
  }

  /** The tile cache: the dictionary and the queue of its keys, oldest first. */
  datatype Cache = Cache(tiles: map<Tile, Bitmap>, order: seq<Tile>)
  {
    /** At most CacheCapacity tiles, each queued once, and the queue holds exactly the cached tiles. */
    ghost predicate Valid()
    {
      |order| <= CacheCapacity && NoRepeats(order) && forall t :: t in tiles <==> t in order
    }
  }

  /**
   * CacheTile on the cache: a cached tile answers its bitmap; otherwise, when the queue is full, the
   * oldest tile leaves first, then the tile joins at the back and its bitmap is the answer.
   */
  function Put(c: Cache, id: Tile, source: Bitmap): (r: (Cache, Bitmap))
    ensures id in r.0.tiles && r.0.tiles[id] == r.1
    ensures id in c.tiles ==> r.0 == c
    ensures id !in c.tiles ==> r.1 == source && |r.0.order| > 0 && r.0.order[|r.0.order| - 1] == id
  {
    if id in c.tiles then (c, c.tiles[id])
    else
      var kept := if |c.order| >= CacheCapacity then Cache(c.tiles - {c.order[0]}, c.order[1..]) else c;
      (Cache(kept.tiles[id := source], kept.order + [id]), source)
  }

  /** The cache invariant survives every CacheTile. */
  lemma PutValid(c: Cache, id: Tile, source: Bitmap)
    requires c.Valid()
    ensures Put(c, id, source).0.Valid()
  {
    if id !in c.tiles {
      var r := Put(c, id, source).0;
      if |c.order| >= CacheCapacity {
        assert r.order == c.order[1..] + [id];
        forall t ensures t in r.tiles <==> t in r.order {
          if t != id && t in c.order[1..] {
            assert t != c.order[0];
          }
          if t in c.order && t != c.order[0] {
            var i :| 0 <= i < |c.order| && c.order[i] == t;
            assert t == c.order[1..][i - 1];
          }
        }
      }
    }
  }

  /**
   * A new tile in a full cache: exactly the oldest tile is forgotten, the others stay with their
   * bitmaps, and the new tile joins at the back.
   */
  lemma {:induction false} PutEvictsOldest(c: Cache, id: Tile, source: Bitmap)
    requires c.Valid() && id !in c.tiles && |c.order| >= CacheCapacity
    ensures var r := Put(c, id, source).0;
      && c.order[0] !in r.tiles
      && r.order == c.order[1..] + [id]
      && (forall t :: t in c.tiles && t != c.order[0] ==> t in r.tiles && r.tiles[t] == c.tiles[t])
  {
    assert c.order[0] in c.order;
  }

  /** A new tile in a cache with room: nothing is forgotten. */
  lemma {:induction false} PutKeepsAll(c: Cache, id: Tile, source: Bitmap)
    requires c.Valid() && id !in c.tiles && |c.order| < CacheCapacity
    ensures var r := Put(c, id, source).0;
      r.order == c.order + [id] && forall t :: t in c.tiles ==> t in r.tiles && r.tiles[t] == c.tiles[t]
  {
  }

  /** The last cap entries of s (all of it when it is shorter). */
  function Window(s: seq<Tile>, cap: nat): (w: seq<Tile>)
    ensures |w| <= cap && |w| <= |s|
  {
    if |s| <= cap then s else s[|s| - cap..]
  }

  /** CacheTile for a batch of tiles, one after the other. */
  function PutAll(c: Cache, batch: seq<(Tile, Bitmap)>): Cache
    decreases |batch|
  {
    if batch == [] then c
    else PutAll(Put(c, batch[0].0, batch[0].1).0, batch[1..])
  }

  function Ids(batch: seq<(Tile, Bitmap)>): (ids: seq<Tile>)
    ensures |ids| == |batch| && forall k :: 0 <= k < |batch| ==> ids[k] == batch[k].0
  {
    if batch == [] then [] else [batch[0].0] + Ids(batch[1..])
  }

  /**
   * First in, first out: caching new tiles one after the other leaves exactly the last 300 of the
   * queue followed by the new tiles, in the order they arrived.
   */
  lemma {:induction false} PutAllWindow(c: Cache, batch: seq<(Tile, Bitmap)>)
    requires c.Valid()
    requires NoRepeats(Ids(batch)) && forall k :: 0 <= k < |batch| ==> batch[k].0 !in c.tiles
    ensures PutAll(c, batch).Valid()
    ensures PutAll(c, batch).order == Window(c.order + Ids(batch), CacheCapacity)
    decreases |batch|
  {
    if batch == [] {
      assert c.order + Ids(batch) == c.order;
    } else {
      var (id, source) := batch[0];
      var c1 := Put(c, id, source).0;
      PutValid(c, id, source);
      if |c.order| >= CacheCapacity {
        PutEvictsOldest(c, id, source);
      } else {
        PutKeepsAll(c, id, source);
      }
      assert Ids(batch) == [id] + Ids(batch[1..]);
      forall k | 0 <= k < |batch[1..]| ensures batch[1..][k].0 !in c1.tiles {
        assert Ids(batch)[k + 1] == batch[1..][k].0 && Ids(batch)[0] == id;
        assert batch[1..][k].0 != id;
        assert batch[1..][k] == batch[k + 1];
      }
      assert NoRepeats(Ids(batch[1..])) by {
        forall i, j | 0 <= i < j < |Ids(batch[1..])| ensures Ids(batch[1..])[i] != Ids(batch[1..])[j] {
          assert Ids(batch[1..])[i] == Ids(batch)[i + 1] && Ids(batch[1..])[j] == Ids(batch)[j + 1];
        }
      }
      PutAllWindow(c1, batch[1..]);
      WindowStep(c.order, id, Ids(batch[1..]));
    }
  }

  /** Sliding the window by one tile and then by the rest is sliding it by all of them. */
  lemma WindowStep(order: seq<Tile>, id: Tile, rest: seq<Tile>)
    requires |order| <= CacheCapacity
    ensures Window((if |order| >= CacheCapacity then order[1..] + [id] else order + [id]) + rest, CacheCapacity)
      == Window(order + ([id] + rest), CacheCapacity)
  {
    var whole := order + ([id] + rest);
    if |order| >= CacheCapacity {
      assert order[1..] + [id] + rest == whole[1..];
    } else {
      assert order + [id] + rest == whole;
    }
  }

  /**
   * The dummy ids of a deep-level query: start, start + 500000, ..., all below end, and no more:
   * the next one would reach end.
   */
  function DummyIds(start: int, end: int): (ids: seq<int>)
    ensures forall k :: 0 <= k < |ids| ==> ids[k] == start + k * GapBetweenItemsForWpfBug && ids[k] < end
    ensures start >= end ==> ids == []
    ensures start < end ==> start + |ids| * GapBetweenItemsForWpfBug >= end
    decreases end - start
  {
    if start >= end then []
    else [start] + DummyIds(start + GapBetweenItemsForWpfBug, end)
  }

  /** The AtMost extension on int: the value, capped at limit. */
  function AtMost(value: int, limit: int): int
  {
    if value > limit then limit else value
  }

  /** GetTileIndex over the visible tiles, in order. */
  function TileIds(source: TileSource, tiles: seq<Tile>): (ids: seq<int>)
    ensures |ids| == |tiles| && forall k :: 0 <= k < |tiles| ==> ids[k] == source.tileIndex(tiles[k])
  {
    if tiles == [] then [] else [source.tileIndex(tiles[0])] + TileIds(source, tiles[1..])
  }

  /** A tile view model: the tile and the bitmap it shows once known. */
  class VisualTile {
    const tile: Tile
    var source: Option<Bitmap>

    constructor (tile: Tile, source: Option<Bitmap>)
      ensures this.tile == tile && this.source == source
    {
      this.tile := tile;
      this.source := source;
    }
  }

  /**
   * A background fetch requested by the indexer: the tile, its URI, the generation of the
   * cancellation token captured at request time, the view model to fill, and whether the task has
   * started running.
   */
  datatype Fetch = Fetch(tile: Tile, uri: string, token: nat, target: VisualTile, running: bool)

  class MultiScaleImageSpatialItemsSource {
    const tileSource: TileSource
    var tileCache: map<Tile, Bitmap>
    var cachedTiles: seq<Tile>
    /**
     * The current CancellationTokenSource, as a generation number: each change of level cancels the
     * current one and makes the next, so a token is cancelled exactly when it is older than this.
     */
    var generation: nat
    var currentLevel: int
    var dummyItem: int
    var pending: seq<Fetch>

    ghost predicate Valid()
      reads this
    {
      Cache(tileCache, cachedTiles).Valid() && forall k :: 0 <= k < |pending| ==> pending[k].token <= generation
    }

    constructor (tileSource: TileSource)
      ensures Valid()
      ensures this.tileSource == tileSource && tileCache == map[] && cachedTiles == []
      ensures generation == 0 && currentLevel == 0 && dummyItem == -1 && pending == []
    {
      this.tileSource := tileSource;
      tileCache := map[];
      cachedTiles := [];
      generation := 0;
      currentLevel := 0;
      dummyItem := -1;
      pending := [];
    }

    /** CacheTile: the cache changes as Put says, and its answer is Put's. */
    method CacheTile(tileId: Tile, source: Bitmap) returns (r: Bitmap)
      requires Valid()
      modifies this
      ensures Valid()
      ensures (Cache(tileCache, cachedTiles), r) == Put(old(Cache(tileCache, cachedTiles)), tileId, source)
      ensures generation == old(generation) && currentLevel == old(currentLevel)
      ensures dummyItem == old(dummyItem) && pending == old(pending)
    {
      PutValid(Cache(tileCache, cachedTiles), tileId, source);
      if tileId in tileCache {
        return tileCache[tileId];
      }
      if |cachedTiles| >= CacheCapacity {
        var oldest := cachedTiles[0];
        cachedTiles := cachedTiles[1..];
        tileCache := tileCache - {oldest};
      }
      cachedTiles := cachedTiles + [tileId];
      tileCache := tileCache[tileId := source];
      r := source;
    }

    /** The CurrentLevel setter: a new level cancels the current token and installs a fresh one. */
    method SetCurrentLevel(value: int)
      requires Valid()
      modifies this
      ensures Valid()
      ensures currentLevel == value
      ensures generation == if value == old(currentLevel) then old(generation) else old(generation) + 1
      ensures tileCache == old(tileCache) && cachedTiles == old(cachedTiles)
      ensures dummyItem == old(dummyItem) && pending == old(pending)
    {
      if value == currentLevel {
        return;
      }
      generation := generation + 1;
      currentLevel := value;
    }

    /**
     * The indexer this[i]: null for the dummy id just yielded; a view model with the cached bitmap
     * when the tile is cached; otherwise a view model whose bitmap comes from a background fetch
     * (URI), from decoding at once (stream), or null when the tile has neither.
     */
    method Item(i: int) returns (vt: VisualTile?)
      requires Valid()
      modifies this
      ensures Valid()
      ensures generation == old(generation) && currentLevel == old(currentLevel) && dummyItem == old(dummyItem)
      ensures var tile := tileSource.tileFromIndex(i);
        if i == old(dummyItem) then
          vt == null && unchanged(this)
        else if tile in old(tileCache) then
          vt != null && fresh(vt) && vt.tile == tile && vt.source == Some(old(tileCache)[tile]) && unchanged(this)
        else match tileSource.layers(tile)
          case UriSource(uri) =>
            && vt != null && fresh(vt) && vt.tile == tile && vt.source == None
            && tileCache == old(tileCache) && cachedTiles == old(cachedTiles)
            && pending == old(pending) + [Fetch(tile, uri, generation, vt, false)]
          case StreamSource(decoded) =>
            && vt != null && fresh(vt) && vt.tile == tile && vt.source == Some(decoded)
            && (Cache(tileCache, cachedTiles), decoded) == Put(old(Cache(tileCache, cachedTiles)), tile, decoded)
            && pending == old(pending)
          case OtherSource =>
            vt == null && unchanged(this)
    {
      if dummyItem == i {
        return null;
      }
      var tile := tileSource.tileFromIndex(i);
      if tile in tileCache {
        vt := new VisualTile(tile, Some(tileCache[tile]));
        return;
      }
      var tileVm := new VisualTile(tile, None);
      match tileSource.layers(tile)
      case UriSource(uri) =>
        pending := pending + [Fetch(tile, uri, generation, tileVm, false)];
        vt := tileVm;
      case StreamSource(decoded) =>
        var src := CacheTile(tile, decoded);
        tileVm.source := Some(src);
        vt := tileVm;
      case OtherSource =>
        vt := null;
    }

    /**
     * The task of the k-th pending fetch is scheduled: when its captured token was cancelled before
     * that moment, the task never runs (and neither does its continuation); otherwise it starts.
     */
    method StartFetch(k: nat)
      requires Valid() && k < |pending| && !pending[k].running
      modifies this
      ensures Valid()
      ensures tileCache == old(tileCache) && cachedTiles == old(cachedTiles)
      ensures generation == old(generation) && currentLevel == old(currentLevel) && dummyItem == old(dummyItem)
      ensures old(pending[k].token) < generation ==> pending == old(pending[..k] + pending[k + 1..])
      ensures old(pending[k].token) == generation ==> pending == old(pending[k := pending[k].(running := true)])
    {
      var f := pending[k];
      if f.token < generation {
        pending := pending[..k] + pending[k + 1..];
      } else {
        pending := pending[k := f.(running := true)];
      }
    }

    /**
     * The running k-th fetch completes with what the loader returned: a bitmap is cached and shown
     * by the view model, nothing when the loader failed. The token is not looked at again.
     */
    method CompleteFetch(k: nat, loaded: Option<Bitmap>)
      requires Valid() && k < |pending| && pending[k].running
      modifies this, pending[k].target
      ensures Valid()
      ensures generation == old(generation) && currentLevel == old(currentLevel) && dummyItem == old(dummyItem)
      ensures pending == old(pending[..k] + pending[k + 1..])
      ensures loaded.None? ==> tileCache == old(tileCache) && cachedTiles == old(cachedTiles)
      ensures loaded.None? ==> old(pending[k].target).source == old(pending[k].target.source)
      ensures loaded.Some? ==>
        var (c, shown) := Put(old(Cache(tileCache, cachedTiles)), old(pending[k].tile), loaded.value);
        Cache(tileCache, cachedTiles) == c && old(pending[k].target).source == Some(shown)
    {
      var f := pending[k];
      pending := pending[..k] + pending[k + 1..];
      assert Valid();
      if loaded.Some? {
        var src := CacheTile(f.tile, loaded.value);
        f.target.source := Some(src);
      }
    }

    /**
     * Query(rect), enumerated to the end: below level 19 only the visible tiles; deeper, first the
     * dummy ids from the first tile of level 18 up to the tiles of the next level, spaced 500000
     * apart. seen is the dummy id the indexer would see at each yield: the id itself for a dummy,
     * -1 for a visible tile.
     */
    method Query(rect: Rect) returns (ids: seq<int>, ghost seen: seq<int>)
      requires Valid()
      modifies this
      ensures Valid()
      ensures tileCache == old(tileCache) && cachedTiles == old(cachedTiles) && pending == old(pending)
      ensures generation == old(generation) && currentLevel == old(currentLevel)
      ensures dummyItem == -1
      ensures var visible := TileIds(tileSource, tileSource.visibleTilesUntilFill(rect, currentLevel));
        var dummies := if currentLevel > MinLevelForWpfBug then
          DummyIds(tileSource.tilesAtLevel(MinLevelForWpfBug), tileSource.tilesAtLevel(AtMost(currentLevel + 1, tileSource.zoomLimitLevel)))
        else [];
        && ids == dummies + visible
        && seen == dummies + seq(|visible|, _ => -1)
    {
      ids, seen := [], [];
      if currentLevel > MinLevelForWpfBug {
        var start := tileSource.tilesAtLevel(MinLevelForWpfBug);
        var end := tileSource.tilesAtLevel(AtMost(currentLevel + 1, tileSource.zoomLimitLevel));
        var i := start;
        while i < end
          invariant ids + DummyIds(i, end) == DummyIds(start, end)
          invariant seen == ids
          invariant tileCache == old(tileCache) && cachedTiles == old(cachedTiles) && pending == old(pending)
          invariant generation == old(generation) && currentLevel == old(currentLevel)
          decreases end - i
        {
          dummyItem := i;
          ids := ids + [i];
          seen := seen + [dummyItem];
          i := i + GapBetweenItemsForWpfBug;
        }
        assert ids == DummyIds(start, end);
      }
      dummyItem := -1;
      var visible := TileIds(tileSource, tileSource.visibleTilesUntilFill(rect, currentLevel));
      ids := ids + visible;
      seen := seen + seq(|visible|, _ => -1);
    }
  }
}
