/**
 * The `GPSMapDisplay` object: its fields, the methods that change them
 * (`load_map_tiles`, `on_gpsd_fix`, the key handling of `run`) and the two that
 * only compute (`get_tiles_to_load`, `draw_map`). Geographic conversion is the
 * constant function `project`, the clock is the `now` argument, the network,
 * disk writes and fallback construction are the `net` argument.
 */
module Display {
  import opened Wrappers
  import opened TileGrid
  import opened TileCache
  import opened Refresh

  const MinZoom: int := 2
  const MaxZoom: int := 18
  const InitialZoom: int := 16

  /** (longitude, latitude) in degrees. */
  datatype GeoPoint = GeoPoint(lon: real, lat: real)

  /** The map centre before the first fix. */
  const DefaultCenter: GeoPoint := GeoPoint(-0.787166, 51.617864)

  /** The part of `current_location` this model keeps. */
  datatype Location = Location(latitude: real, longitude: real, mode: int, timestamp: real)

  datatype Key = PlusKey | EqualsKey | MinusKey | EscapeKey | OtherKey
  datatype InputEvent = QuitEvent | KeyDown(key: Key)

  /** One `screen.blit` of a tile surface at a screen position. */
  datatype Blit = Blit(image: TileImage, at: Coord)

  /** Python's `int()` of a float: truncation toward zero. */
  function TruncToInt(r: real): (i: int)
    ensures r >= 0.0 ==> 0 <= i && i as real <= r < i as real + 1.0
    ensures r < 0.0 ==> i <= 0 && i as real - 1.0 < r <= i as real
  {
    if r >= 0.0 then r.Floor else -((-r).Floor)
  }

  // ---- zoom keys ------------------------------------------------------------

  /** The zoom after a key press in `run`: "+" and "=" clamp at 18, "-" at 2. */
  function ZoomAfterKey(zoom: int, key: Key): int {
    match key
    case PlusKey => if zoom + 1 < MaxZoom then zoom + 1 else MaxZoom
    case EqualsKey => if zoom + 1 < MaxZoom then zoom + 1 else MaxZoom
    case MinusKey => if zoom - 1 > MinZoom then zoom - 1 else MinZoom
    case _ => zoom
  }

  function ZoomAfterKeys(zoom: int, keys: seq<Key>): int
    decreases |keys|
  {
    if keys == [] then zoom else ZoomAfterKeys(ZoomAfterKey(zoom, keys[0]), keys[1..])
  }

  /** No sequence of key presses takes the zoom out of [2, 18]. */
  lemma {:induction false} ZoomStaysInRange(zoom: int, keys: seq<Key>)
    requires MinZoom <= zoom <= MaxZoom
    ensures MinZoom <= ZoomAfterKeys(zoom, keys) <= MaxZoom
    decreases |keys|
  {
    if keys != [] {
      ZoomStaysInRange(ZoomAfterKey(zoom, keys[0]), keys[1..]);
    }
  }

  /** Starting from 16, the zoom is always in [2, 18]. */
  lemma ZoomFromStartInRange(keys: seq<Key>)
    ensures MinZoom <= ZoomAfterKeys(InitialZoom, keys) <= MaxZoom
  {
    ZoomStaysInRange(InitialZoom, keys);
  }

  /** Pressing "+" n times from a zoom in range gives min(zoom + n, 18). */
  lemma {:induction false} RepeatedZoomIn(zoom: int, n: nat)
    requires MinZoom <= zoom <= MaxZoom
    ensures ZoomAfterKeys(zoom, seq(n, _ => PlusKey)) == if zoom + n < MaxZoom then zoom + n else MaxZoom
    decreases n
  {
    if n > 0 {
      var keys := seq(n, _ => PlusKey);
      assert keys[1..] == seq(n - 1, _ => PlusKey);
      RepeatedZoomIn(ZoomAfterKey(zoom, PlusKey), n - 1);
    }
  }

  // ---- draw_map -------------------------------------------------------------

  /** The blit of tile `c` with the focal point at pixel (px, py) of `centre`. */
  function BlitOf(tiles: map<Coord, TileImage>, centre: Coord, px: int, py: int, c: Coord): Blit
    requires c in tiles
  {
    Blit(tiles[c], TileScreenPosition(centre, px, py, c))
  }

  /** What `draw_map` blits: every tile whose placed square is on screen. */
  function DrawnSet(tiles: map<Coord, TileImage>, centre: Coord, px: int, py: int): set<Blit> {
    set c | c in tiles && OnScreen(TileScreenPosition(centre, px, py, c)) :: BlitOf(tiles, centre, px, py, c)
  }

  /** The tiles of the window around centre tile `c`, as a set. */
  ghost function WindowSet(c: Coord): set<Coord> {
    set p | p in TileWindow(c.0, c.1)
  }

  class GpsMapDisplay {
    /** `lon2tile` and `lat2tile` of a point at a zoom level. */
    const project: (GeoPoint, int) -> Coord

    var currentLocation: Option<Location>
    var mapCenter: GeoPoint
    var zoom: int
    var tiles: map<Coord, TileImage>
    var currentTileCoords: Option<TileKey>
    var lastTileDownloadTime: real
    /** The contents of the `map_cache` directory. */
    var cacheFiles: Files
    var running: bool

    /** The centre tile whose window `tiles` holds, if any. */
    ghost var loadedFor: Option<Coord>

    /** The zoom is in range, and `tiles` is always empty or one complete window, never part of one. */
    ghost predicate Valid()
      reads this
    {
      && MinZoom <= zoom <= MaxZoom
      && (loadedFor.None? ==> tiles == map[])
      && (loadedFor.Some? ==> tiles.Keys == WindowSet(loadedFor.value))
    }

    /** The state the refresh engine works on. */
    function Snapshot(): Engine
      reads this
    {
      Engine(tiles, currentTileCoords, lastTileDownloadTime, cacheFiles)
    }

    /** `__init__`: default centre, zoom 16, no tiles, then a first `load_map_tiles`. */
    constructor (project: (GeoPoint, int) -> Coord, files: Files, now: real, net: Coord -> Outcome)
      ensures Valid()
      ensures this.project == project && mapCenter == DefaultCenter && zoom == InitialZoom
      ensures currentLocation.None? && running
      ensures Snapshot() == Refreshed(Engine(map[], None, 0.0, files), project(DefaultCenter, InitialZoom), InitialZoom, now, net)
    {
      this.project := project;
      currentLocation := None;
      mapCenter := DefaultCenter;
      zoom := InitialZoom;
      tiles := map[];
      currentTileCoords := None;
      lastTileDownloadTime := 0.0;
      cacheFiles := files;
      running := true;
      loadedFor := None;
      new;
      LoadMapTiles(now, net);
    }

    /** `get_tiles_to_load`: the nested loops, `dx` outside and `dy` inside. */
    method GetTilesToLoad(cx: int, cy: int) returns (keys: seq<Coord>)
      ensures keys == TileWindow(cx, cy)
    {
      var tilesHorizontal := CeilDiv(Width, TileSize) + 1;
      var tilesVertical := CeilDiv(Height, TileSize) + 1;
      var startX := cx - tilesHorizontal / 2;
      var startY := cy - tilesVertical / 2;
      keys := [];
      var dx := 0;
      while dx < tilesHorizontal + 1
        invariant 0 <= dx <= tilesHorizontal + 1
        invariant keys == Block(startX, startY, dx, tilesVertical + 1)
      {
        var dy := 0;
        while dy < tilesVertical + 1
          invariant 0 <= dy <= tilesVertical + 1
          invariant keys == Block(startX, startY, dx, tilesVertical + 1) + Column(startX + dx, startY, dy)
        {
          keys := keys + [(startX + dx, startY + dy)];
          dy := dy + 1;
        }
        dx := dx + 1;
      }
    }

    /** `load_cached_tile`: the decoded file when it exists and decodes. */
    method LoadCachedTile(x: int, y: int, zoom: int) returns (t: Option<TileImage>)
      ensures t == CachedTile(cacheFiles, FileOf(zoom, (x, y)))
      ensures t.Some? <==> FileOf(zoom, (x, y)) in cacheFiles && cacheFiles[FileOf(zoom, (x, y))].PngFile?
      ensures t.Some? ==> t.value == Raster(cacheFiles[FileOf(zoom, (x, y))].pixels)
    {
      var filename := FileOf(zoom, (x, y));
      if filename in cacheFiles && cacheFiles[filename].PngFile? {
        t := Some(Raster(cacheFiles[filename].pixels));
      } else {
        t := None;
      }
    }

    /** `save_tile_to_cache`: writes the file, or (when the save raises) leaves the cache as it was. */
    method SaveTileToCache(x: int, y: int, zoom: int, pixels: nat, saveSucceeds: bool)
      modifies this`cacheFiles
      ensures cacheFiles == if saveSucceeds then old(cacheFiles)[FileOf(zoom, (x, y)) := PngFile(pixels)] else old(cacheFiles)
    {
      if saveSucceeds {
        cacheFiles := cacheFiles[FileOf(zoom, (x, y)) := PngFile(pixels)];
      }
    }

    /**
     * `download_tile`: `raised` when an exception escapes it (the fallback tile
     * could not be built); otherwise the downloaded tile or the fallback tile.
     */
    method DownloadTile(x: int, y: int, zoom: int, o: Outcome) returns (t: TileImage, raised: bool)
      modifies this`cacheFiles
      ensures raised <==> Download(old(cacheFiles), zoom, (x, y), o).None?
      ensures raised ==> cacheFiles == old(cacheFiles)
      ensures !raised ==> Download(old(cacheFiles), zoom, (x, y), o) == Some(Loaded(t, cacheFiles))
    {
      if ImageReply(o.response) {
        var pixels := o.response.body.value;
        SaveTileToCache(x, y, zoom, pixels, o.saveSucceeds);
        t, raised := Raster(pixels), false;
      } else {
        t, raised := FallbackTile(x, y), o.fallbackRaises;
      }
    }

    /** The body of the loop of `load_map_tiles`: the cached tile if there is one, else a download. */
    method LoadTileForKey(c: Coord, zoom: int, o: Outcome) returns (t: TileImage, raised: bool)
      modifies this`cacheFiles
      ensures raised <==> LoadTile(old(cacheFiles), zoom, c, o).None?
      ensures raised ==> cacheFiles == old(cacheFiles)
      ensures !raised ==> LoadTile(old(cacheFiles), zoom, c, o) == Some(Loaded(t, cacheFiles))
    {
      var cached := LoadCachedTile(c.0, c.1, zoom);
      if cached.Some? {
        t, raised := cached.value, false;
      } else {
        t, raised := DownloadTile(c.0, c.1, zoom, o);
      }
    }

    /**
     * `load_map_tiles` at time `now`: the cooldown gate, the same-centre gate,
     * then the loop that fills a fresh dictionary, cache first, and assigns it.
     */
    method LoadMapTiles(now: real, net: Coord -> Outcome)
      requires Valid()
      modifies this`tiles, this`currentTileCoords, this`lastTileDownloadTime, this`cacheFiles, this`loadedFor
      ensures Valid()
      ensures Snapshot() == Refreshed(old(Snapshot()), project(mapCenter, zoom), zoom, now, net)
    {
      if now - lastTileDownloadTime < DownloadCooldown {
        GatedCallChangesNothing(Snapshot(), project(mapCenter, zoom), zoom, now, net);
        return;
      }
      var centre := project(mapCenter, zoom);
      if currentTileCoords.Some? && currentTileCoords.value == TileKey(zoom, centre.0, centre.1) {
        GatedCallChangesNothing(Snapshot(), centre, zoom, now, net);
        return;
      }
      ghost var e0 := Snapshot();
      currentTileCoords := Some(TileKey(zoom, centre.0, centre.1));
      lastTileDownloadTime := now;
      var keys := GetTilesToLoad(centre.0, centre.1);
      var newTiles, raised := LoadKeysInto(keys, zoom, net);
      ReloadResult(e0, centre, zoom, now, net);
      if raised {
        return;
      }
      LoadKeysDomain(e0.files, zoom, keys, net);
      tiles := newTiles;
      loadedFor := Some(centre);
    }

    /**
     * The loop of `load_map_tiles` over `keys`, filling a fresh dictionary; `raised`
     * when an exception escaped a download, which ends the loop at once.
     */
    method LoadKeysInto(keys: seq<Coord>, zoom: int, net: Coord -> Outcome) returns (newTiles: map<Coord, TileImage>, raised: bool)
      modifies this`cacheFiles
      ensures var b := LoadKeys(old(cacheFiles), zoom, keys, net);
        b.files == cacheFiles && b.faulted == raised && (!raised ==> b.tiles == newTiles)
    {
      ghost var files0 := cacheFiles;
      newTiles := map[];
      var i := 0;
      while i < |keys|
        invariant 0 <= i <= |keys|
        invariant LoadKeys(files0, zoom, keys[..i], net) == Batch(newTiles, cacheFiles, false)
        modifies this`cacheFiles
      {
        var c := keys[i];
        LoadKeysStep(files0, zoom, keys, net, i);
        var t;
        t, raised := LoadTileForKey(c, zoom, net(c));
        if raised {
          FaultIsFinal(files0, zoom, keys, net, i + 1);
          return;
        }
        newTiles := newTiles[c := t];
        i := i + 1;
      }
      assert keys[..i] == keys;
      raised := false;
    }

    /**
     * `on_gpsd_fix(*args)`: an event of any arity but 15 changes nothing; otherwise
     * the fix is recorded, the map centre moves to (lon, lat) = (args[4], args[3]),
     * and `load_map_tiles` runs exactly when the centre tile at the current zoom
     * changed or no centre tile has been recorded yet.
     */
    method OnGpsdFix(args: seq<real>, now: real, net: Coord -> Outcome)
      requires Valid()
      modifies this
      ensures Valid()
      ensures |args| != 15 ==> unchanged(this)
      ensures |args| == 15 ==>
        && mapCenter == GeoPoint(args[4], args[3])
        && currentLocation == Some(Location(args[3], args[4], TruncToInt(args[1]), now))
        && zoom == old(zoom) && running == old(running)
        && Snapshot() == (if project(old(mapCenter), zoom) != project(mapCenter, zoom) || old(currentTileCoords).None?
                          then Refreshed(old(Snapshot()), project(mapCenter, zoom), zoom, now, net)
                          else old(Snapshot()))
    {
      if |args| != 15 {
        return;
      }
      var lat := args[3];
      var lon := args[4];
      var mode := TruncToInt(args[1]);
      currentLocation := Some(Location(lat, lon, mode, now));
      var oldCenter := mapCenter;
      mapCenter := GeoPoint(lon, lat);
      var centre := project(mapCenter, zoom);
      var oldCentre := project(oldCenter, zoom);
      if oldCentre != centre || currentTileCoords.None? {
        LoadMapTiles(now, net);
      }
    }

    /**
     * `on_gpsd_fix` with the trigger it evidently intends: the tiles are reloaded
     * whenever the recorded centre tile is not the current one, so a reload that
     * the cooldown suppressed is made up by the next fix that passes the cooldown.
     */
    method OnGpsdFixIntended(args: seq<real>, now: real, net: Coord -> Outcome)
      requires Valid()
      modifies this
      ensures Valid()
      ensures |args| != 15 ==> unchanged(this)
      ensures |args| == 15 ==>
        && mapCenter == GeoPoint(args[4], args[3])
        && currentLocation == Some(Location(args[3], args[4], TruncToInt(args[1]), now))
        && zoom == old(zoom) && running == old(running)
        && Snapshot() == (if old(currentTileCoords) != Some(CentreKey(project(mapCenter, zoom), zoom))
                          then Refreshed(old(Snapshot()), project(mapCenter, zoom), zoom, now, net)
                          else old(Snapshot()))
      ensures |args| == 15 && now - old(lastTileDownloadTime) >= DownloadCooldown ==>
        currentTileCoords == Some(CentreKey(project(mapCenter, zoom), zoom))
    {
      if |args| != 15 {
        return;
      }
      currentLocation := Some(Location(args[3], args[4], TruncToInt(args[1]), now));
      mapCenter := GeoPoint(args[4], args[3]);
      var centre := project(mapCenter, zoom);
      if currentTileCoords != Some(CentreKey(centre, zoom)) {
        LoadMapTiles(now, net);
      }
    }

    /** The event handling of `run`: quit and escape stop the loop; zoom keys clamp the zoom and reload. */
    method HandleEvent(ev: InputEvent, now: real, net: Coord -> Outcome)
      requires Valid()
      modifies this
      ensures Valid()
      ensures (ev.QuitEvent? || ev == KeyDown(EscapeKey)) ==>
        && !running && mapCenter == old(mapCenter) && zoom == old(zoom)
        && currentLocation == old(currentLocation) && Snapshot() == old(Snapshot())
      ensures ev == KeyDown(OtherKey) ==> unchanged(this)
      ensures ev.KeyDown? && ev.key in {PlusKey, EqualsKey, MinusKey} ==>
        && zoom == ZoomAfterKey(old(zoom), ev.key)
        && mapCenter == old(mapCenter) && running == old(running) && currentLocation == old(currentLocation)
        && Snapshot() == Refreshed(old(Snapshot()), project(mapCenter, zoom), zoom, now, net)
    {
      match ev
      case QuitEvent =>
        running := false;
      case KeyDown(key) =>
        if key == EscapeKey {
          running := false;
        } else if key != OtherKey {
          zoom := ZoomAfterKey(zoom, key);
          LoadMapTiles(now, net);
        }
    }

    /**
     * `draw_map`, given the pixel (px, py) of the focal point inside the centre
     * tile: nothing without tiles or a recorded centre; otherwise one blit per
     * tile whose square is on screen, at its grid position.
     */
    method DrawMap(px: int, py: int) returns (blits: seq<Blit>)
      ensures tiles == map[] || currentTileCoords.None? ==> blits == []
      ensures currentTileCoords.Some? ==>
        forall b :: b in blits <==>
          b in DrawnSet(tiles, (currentTileCoords.value.x, currentTileCoords.value.y), px, py)
      ensures Distinct(blits)
    {
      blits := [];
      if tiles == map[] || currentTileCoords.None? {
        return;
      }
      var centre := (currentTileCoords.value.x, currentTileCoords.value.y);
      var remaining := tiles.Keys;
      ghost var drawn: seq<Coord> := [];
      while remaining != {}
        invariant remaining <= tiles.Keys
        invariant |drawn| == |blits| && Distinct(drawn)
        invariant forall k :: 0 <= k < |drawn| ==> drawn[k] in tiles && drawn[k] !in remaining
        invariant forall k :: 0 <= k < |drawn| ==> blits[k] == BlitOf(tiles, centre, px, py, drawn[k])
        invariant forall k :: 0 <= k < |drawn| ==> OnScreen(TileScreenPosition(centre, px, py, drawn[k]))
        invariant forall c :: c in tiles && c !in remaining && OnScreen(TileScreenPosition(centre, px, py, c)) ==>
          BlitOf(tiles, centre, px, py, c) in blits
        decreases |remaining|
      {
        var c :| c in remaining;
        var position := TileScreenPosition(centre, px, py, c);
        if position.0 + TileSize > 0 && position.0 < Width && position.1 + TileSize > 0 && position.1 < Height {
          blits := blits + [Blit(tiles[c], position)];
          drawn := drawn + [c];
        }
        remaining := remaining - {c};
      }
      forall k1, k2 | 0 <= k1 < k2 < |blits|
        ensures blits[k1] != blits[k2]
      {
        if blits[k1] == blits[k2] {
          PlacementInjective(centre, px, py, drawn[k1], drawn[k2]);
        }
      }
      forall b | b in blits
        ensures b in DrawnSet(tiles, centre, px, py)
      {
        var k :| 0 <= k < |blits| && blits[k] == b;
        assert drawn[k] in tiles;
      }
    }
  }

  /**
   * The defect of `on_gpsd_fix` as written: a zoom key pressed less than a second
   * after the last reload changes the zoom, but the reload is suppressed, and no
   * later fix at the same place reloads, however much later it comes: the tiles
   * stay those of the old zoom.
   */
  method LostZoomScenario(project: (GeoPoint, int) -> Coord, files: Files, net: Coord -> Outcome, t0: real)
    returns (shown: Option<TileKey>, selected: int, window: set<Coord>)
    requires t0 >= DownloadCooldown
    ensures shown == Some(CentreKey(project(DefaultCenter, InitialZoom), InitialZoom))
    ensures selected == InitialZoom + 1
    ensures (forall c :: !net(c).fallbackRaises) ==> window == WindowSet(project(DefaultCenter, InitialZoom))
  {
    ghost var e0 := Engine(map[], None, 0.0, files);
    var d := new GpsMapDisplay(project, files, t0, net);
    if forall c :: !net(c).fallbackRaises {
      ReloadWithoutRaiseInstallsWindow(e0, project(DefaultCenter, InitialZoom), InitialZoom, t0, net);
    }
    d.HandleEvent(KeyDown(PlusKey), t0 + 0.5, net);
    var fix := seq(15, _ => 0.0)[3 := DefaultCenter.lat][4 := DefaultCenter.lon];
    d.OnGpsdFix(fix, t0 + 3600.0, net);
    shown, selected, window := d.currentTileCoords, d.zoom, d.tiles.Keys;
  }

  /** The same events with the intended trigger: the fix an hour later reloads at the new zoom. */
  method LostZoomScenarioIntended(project: (GeoPoint, int) -> Coord, files: Files, net: Coord -> Outcome, t0: real)
    returns (shown: Option<TileKey>, selected: int, window: set<Coord>)
    requires t0 >= DownloadCooldown
    ensures shown == Some(CentreKey(project(DefaultCenter, InitialZoom + 1), InitialZoom + 1))
    ensures selected == InitialZoom + 1
    ensures (forall c :: !net(c).fallbackRaises) ==> window == WindowSet(project(DefaultCenter, InitialZoom + 1))
  {
    var d := new GpsMapDisplay(project, files, t0, net);
    d.HandleEvent(KeyDown(PlusKey), t0 + 0.5, net);
    var fix := seq(15, _ => 0.0)[3 := DefaultCenter.lat][4 := DefaultCenter.lon];
    ghost var e1 := d.Snapshot();
    d.OnGpsdFixIntended(fix, t0 + 3600.0, net);
    if forall c :: !net(c).fallbackRaises {
      ReloadWithoutRaiseInstallsWindow(e1, project(DefaultCenter, InitialZoom + 1), InitialZoom + 1, t0 + 3600.0, net);
    }
    shown, selected, window := d.currentTileCoords, d.zoom, d.tiles.Keys;
  }
}
