/**
 * The refresh policy of `load_map_tiles` as a function of the state it reads
 * and writes: a one-second cooldown gate, then a same-centre-tile gate, then a
 * fresh 16-tile dictionary swapped in wholesale.
 */
module Refresh {
  import opened Wrappers
  import opened TileGrid
  import opened TileCache

  /** `download_cooldown`, in seconds. */
  const DownloadCooldown: real := 1.0

  /**
   * The fields `load_map_tiles` touches: `tiles`, `current_tile_coords`,
   * `last_tile_download_time`, and the cache directory on disk.
   */
  datatype Engine = Engine(tiles: map<Coord, TileImage>, coords: Option<TileKey>, last: real, files: Files)

  /** `current_tile_coords` as the source writes it: `(center_x, center_y, zoom)`. */
  function CentreKey(centre: Coord, zoom: int): TileKey {
    TileKey(zoom, centre.0, centre.1)
  }

  /** The cooldown gate lets a call through. */
  predicate CooledDown(e: Engine, now: real) {
    now - e.last >= DownloadCooldown
  }

  /** A call passes both gates and reloads. */
  predicate Reloads(e: Engine, centre: Coord, zoom: int, now: real) {
    CooledDown(e, now) && e.coords != Some(CentreKey(centre, zoom))
  }

  /**
   * `load_map_tiles` for the centre tile `centre` at `zoom`, called at time `now`.
   * The new coordinates and time are recorded before the first tile is fetched, so
   * an exception during the loop keeps them (and what was saved so far) but not
   * the new dictionary.
   */
  function Refreshed(e: Engine, centre: Coord, zoom: int, now: real, net: Coord -> Outcome): Engine {
    if !CooledDown(e, now) then e
    else if e.coords == Some(CentreKey(centre, zoom)) then e
    else
      var b := LoadKeys(e.files, zoom, TileWindow(centre.0, centre.1), net);
      Engine(if b.faulted then e.tiles else b.tiles, Some(CentreKey(centre, zoom)), now, b.files)
  }

  /** The state after a call that passes both gates, spelled out. */
  lemma ReloadResult(e: Engine, centre: Coord, zoom: int, now: real, net: Coord -> Outcome)
    requires Reloads(e, centre, zoom, now)
    ensures var b := LoadKeys(e.files, zoom, TileWindow(centre.0, centre.1), net);
      Refreshed(e, centre, zoom, now, net)
        == Engine(if b.faulted then e.tiles else b.tiles, Some(CentreKey(centre, zoom)), now, b.files)
  {
  }

  /** A call that does not pass both gates changes nothing at all. */
  lemma GatedCallChangesNothing(e: Engine, centre: Coord, zoom: int, now: real, net: Coord -> Outcome)
    requires !Reloads(e, centre, zoom, now)
    ensures Refreshed(e, centre, zoom, now, net) == e
  {
  }

  /**
   * A call that passes both gates records the centre and the time, and, unless an
   * exception cut the loop short, installs a dictionary whose keys are exactly the
   * 16 tiles of the window, each holding the tile that loading it against the
   * cache as it was gives: the old dictionary contributes nothing.
   */
  lemma ReloadInstallsWindow(e: Engine, centre: Coord, zoom: int, now: real, net: Coord -> Outcome)
    requires Reloads(e, centre, zoom, now)
    ensures var r, w := Refreshed(e, centre, zoom, now, net), TileWindow(centre.0, centre.1);
      && r.coords == Some(CentreKey(centre, zoom))
      && r.last == now
      && r.files == LoadKeys(e.files, zoom, w, net).files
      && ((exists c :: c in w && TileFor(e.files, zoom, c, net(c)).None?) ==> r.tiles == e.tiles)
      && ((forall c :: c in w ==> TileFor(e.files, zoom, c, net(c)).Some?) ==>
            && r.tiles.Keys == (set c | c in w)
            && |r.tiles| == 16
            && forall c :: c in w ==> Some(r.tiles[c]) == TileFor(e.files, zoom, c, net(c)))
  {
    var w := TileWindow(centre.0, centre.1);
    WindowShape(centre.0, centre.1);
    LoadKeysFaults(e.files, zoom, w, net);
    var b := LoadKeys(e.files, zoom, w, net);
    if !b.faulted {
      LoadKeysDomain(e.files, zoom, w, net);
      forall c | c in w
        ensures Some(b.tiles[c]) == TileFor(e.files, zoom, c, net(c))
      {
        LoadKeysAt(e.files, zoom, w, net, c);
      }
      SetOfDistinct(w);
    }
  }

  /**
   * When no fallback tile raises, a reload always completes: the dictionary then
   * holds exactly the tiles of the window around the new centre.
   */
  lemma ReloadWithoutRaiseInstallsWindow(e: Engine, centre: Coord, zoom: int, now: real, net: Coord -> Outcome)
    requires Reloads(e, centre, zoom, now)
    requires forall c :: !net(c).fallbackRaises
    ensures Refreshed(e, centre, zoom, now, net).tiles.Keys == set c | c in TileWindow(centre.0, centre.1)
  {
    ReloadInstallsWindow(e, centre, zoom, now, net);
    forall c | c in TileWindow(centre.0, centre.1)
      ensures TileFor(e.files, zoom, c, net(c)).Some?
    {
      assert !net(c).fallbackRaises;
    }
  }

  /** A list of distinct elements has as many elements as its set. */
  lemma {:induction false} SetOfDistinct<T>(s: seq<T>)
    requires Distinct(s)
    ensures |set x | x in s| == |s|
  {
    if s != [] {
      var init := s[..|s| - 1];
      assert Distinct(init);
      SetOfDistinct(init);
      assert s == init + [s[|s| - 1]];
      assert (set x | x in s) == (set x | x in init) + {s[|s| - 1]};
      assert s[|s| - 1] !in init;
    }
  }

  /**
   * A reload swaps the dictionary in wholesale: two engines that differ only in
   * their dictionary end an unfaulted reload in the same state.
   */
  lemma ReloadIgnoresOldTiles(e1: Engine, e2: Engine, centre: Coord, zoom: int, now: real, net: Coord -> Outcome)
    requires e1.coords == e2.coords && e1.last == e2.last && e1.files == e2.files
    requires Reloads(e1, centre, zoom, now)
    requires !LoadKeys(e1.files, zoom, TileWindow(centre.0, centre.1), net).faulted
    ensures Refreshed(e1, centre, zoom, now, net) == Refreshed(e2, centre, zoom, now, net)
  {
  }

  /**
   * Rate limit: once a call has reloaded, every call less than `DownloadCooldown`
   * later changes nothing, whatever its centre, zoom or network.
   */
  lemma ReloadsAreRateLimited(e: Engine, c1: Coord, z1: int, t1: real, n1: Coord -> Outcome,
                              c2: Coord, z2: int, t2: real, n2: Coord -> Outcome)
    requires Reloads(e, c1, z1, t1)
    requires t2 - t1 < DownloadCooldown
    ensures var r1 := Refreshed(e, c1, z1, t1, n1); Refreshed(r1, c2, z2, t2, n2) == r1
  {
  }

  /** Repeating a call with the same centre, zoom and time changes nothing more. */
  lemma RefreshedIdempotent(e: Engine, centre: Coord, zoom: int, now: real, n1: Coord -> Outcome, n2: Coord -> Outcome)
    ensures var r := Refreshed(e, centre, zoom, now, n1); Refreshed(r, centre, zoom, now, n2) == r
  {
  }

  /** Cache hits never change: a tile already readable in the cache is still there, as it was, after any call. */
  lemma RefreshKeepsCache(e: Engine, centre: Coord, zoom: int, now: real, net: Coord -> Outcome, name: TileKey)
    requires name in e.files && e.files[name].PngFile?
    ensures var r := Refreshed(e, centre, zoom, now, net);
      name in r.files && r.files[name] == e.files[name] && e.files.Keys <= r.files.Keys
  {
    LoadKeysFrame(e.files, zoom, TileWindow(centre.0, centre.1), net, name);
  }
}
