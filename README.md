# GPS map display: tile window, tile cache and refresh policy

`gps-display.py` puts an OpenStreetMap slippy map on a 480x272 screen. GPS
fixes come in over D-Bus and move the map centre. The zoom keys change the zoom
level, clamped to [2, 18]. For the centre tile, the display loads a 4x4 window
of 256-pixel tiles into a dictionary. Each tile comes from the on-disk cache
(`map_cache/tile_{zoom}_{x}_{y}.png`) when it is there and decodes. Otherwise
it is downloaded and saved, or replaced by a synthetic fallback tile. A
one-second cooldown and a same-centre-tile check limit how often the window
is reloaded. `draw_map` blits each loaded tile at its grid position and skips
the ones entirely off screen.

The model has six modules:

- `Wrappers`: `Option`.
- `DecimalText`: Python's `str()` of an integer, and a parser that reads it back.
- `TileGrid`: the list of tiles `get_tiles_to_load` returns (`TileWindow`), the
  screen placement of a tile, and the visibility test of `draw_map`.
- `TileCache`: the cache file name of a tile, loading one tile cache first
  (`LoadTile`, `Download`), and the loop of `load_map_tiles` over a list of
  tiles as a fold (`LoadKeys`). Both keep track of the cache directory,
  `Files`. The file `map_cache/tile_{zoom}_{x}_{y}.png` of a tile is held under
  that tile's key `(zoom, x, y)`. `FilenameInjective` and `FilenameRoundTrip`
  show the name and the key determine each other, so no file is lost or merged.
- `Refresh`: the refresh policy as a pure function `Refreshed` on the four
  pieces of state `load_map_tiles` reads and writes (`Engine`).
- `Display`: the `GPSMapDisplay` object as the class `GpsMapDisplay`. Its
  fields are updated in place by imperative methods whose contracts tie the
  new state to `Refreshed`. It also holds the zoom-key arithmetic of `run`.

The outside world enters as parameters:

- the clock, `now`;
- the answer of the network, `net`: for each tile, the HTTP reply or request
  exception, whether the cache write succeeds, and whether building the
  fallback tile raises;
- `lon2tile`/`lat2tile`, the constant function `project`;
- the pixel position of the focal point inside the centre tile, `px`/`py` of
  `DrawMap`.

Where the descriptive documentation of the program and the code disagree, the
model follows the code:

- Tile indices are never clipped to `[0, 2^zoom)`. Near the grid's edge the
  window holds negative indices (`WindowIsNotClipped`).
- Reloads are triggered by the centre tile changing, not by an edge buffer.
  `edge_buffer_pixels`, `tiles_x` and `tiles_y` are computed but never read,
  so the model leaves them out.
- A zoom change reloads through the same cooldown as a fix does. A zoom key
  pressed within a second of the last reload changes no tiles.

## Model

| member | source | states |
|---|---|---|
| `TileGrid.CeilDivIsCeiling` | gps-display.py:164-165 | `math.ceil(a / b)` is the least `q` with `a <= b*q` |
| `TileGrid.WindowDimensions` | gps-display.py:164-165 | 480/256 and 272/256 round up to 2 each; 2+1 = 3 tiles horizontally and vertically |
| `TileGrid.WindowShape` | gps-display.py:159-178 | the tile list has 3+1 by 3+1 = 16 entries, no duplicates, contains the centre tile, and holds exactly the tiles from one left of and above the centre to two right of and below it |
| `TileGrid.WindowAt` | gps-display.py:168-176 | entry `dx*4 + dy` is `(start_x + dx, start_y + dy)`: columns outside, rows inside |
| `TileGrid.WindowIsNotClipped` | gps-display.py:168-176 | nothing is clipped to the grid: at centre (0, 0) the first entry is (-1, -1) |
| `TileGrid.OnScreenIffOverlaps` | gps-display.py:324-326 | the visibility test holds exactly when the tile's 256x256 square shares a pixel with the 480x272 screen |
| `TileGrid.PlacementIsGrid` | gps-display.py:313-321 | the focal pixel of the centre tile lands on the screen centre (240, 136); neighbouring tiles sit exactly 256 pixels apart |
| `TileGrid.DistinctTilesDisjoint` | gps-display.py:318-326 | two different tiles never cover the same pixel, so the order of the blits does not matter |
| `TileGrid.PlacementInjective` | gps-display.py:320-321 | different tiles get different screen positions |
| `TileGrid.WindowCoversScreen` | gps-display.py:314-321 | with the focal point inside the centre tile, every screen pixel is covered by some tile of the window |
| `DecimalText.ParseIntRoundTrip` | gps-display.py:92 | the decimal text of any integer, negative ones included, parses back to it |
| `DecimalText.IntToStringAlphabet` | gps-display.py:92 | the text of an integer is non-empty and made only of digits and `-`, so it never contains the `_` separator |
| `TileCache.FilenameRoundTrip` | gps-display.py:90-92 | the name `map_cache/tile_{zoom}_{x}_{y}.png` parses back to (zoom, x, y) |
| `TileCache.FilenameInjective` | gps-display.py:90-92 | different tiles have different cache files |
| `TileCache.Download` | gps-display.py:129-157 | an HTTP 200 whose body decodes yields that raster, saved under the tile's key exactly when the save succeeds; any other reply or a request exception yields the fallback tile of (x, y) and writes nothing, or fails as a whole exactly when building the fallback raises |
| `TileCache.LoadTile` | gps-display.py:210-218 | a readable cached file is used as is and nothing is written; otherwise the result is the download; no file but the tile's own changes and none disappears |
| `TileCache.LoadTileLocal` | gps-display.py:94-102 | loading a tile reads no cache file but its own |
| `TileCache.SavedTileIsHit` | gps-display.py:141-150 | after a miss, a good download and a successful save, the next load of that tile is a cache hit whatever the network does |
| `TileCache.FaultIsFinal` | gps-display.py:208-225 | once an exception has stopped the loop, the remaining keys change nothing |
| `TileCache.LoadKeysFrame` | gps-display.py:208-219 | the loop removes no cache file, writes none but those of its keys, and leaves every readable file as it was |
| `TileCache.LoadKeysDomain` | gps-display.py:209-218 | without an exception, the new dictionary's keys are exactly the loop's keys |
| `TileCache.LoadKeysAt` | gps-display.py:209-219 | for distinct keys, each key gets exactly the tile (and writes exactly the file) it would get against the cache as it was before the loop, whatever the order |
| `TileCache.LoadKeysFaults` | gps-display.py:208-225 | the loop over distinct keys is cut short exactly when some key misses the cache, gets no raster and its fallback raises |
| `Refresh.GatedCallChangesNothing` | gps-display.py:185-198 | a call within the cooldown or for the recorded centre key changes no state at all |
| `Refresh.ReloadInstallsWindow` | gps-display.py:200-221 | after a reload, the dictionary's keys are exactly the 16 window tiles, each holding the tile loaded against the old cache; if some tile raised, the old dictionary is kept but the centre and time are still recorded |
| `Refresh.ReloadWithoutRaiseInstallsWindow` | gps-display.py:200-221 | when no fallback tile raises, a reload always completes, and the dictionary then holds exactly the window around the new centre tile |
| `Refresh.ReloadIgnoresOldTiles` | gps-display.py:209-221 | the dictionary is replaced wholesale: the old dictionary has no effect on a completed reload |
| `Refresh.ReloadsAreRateLimited` | gps-display.py:185-187 | once a call reloads, every call less than one second later changes nothing, whatever its centre, zoom or network |
| `Refresh.RefreshedIdempotent` | gps-display.py:195-201 | repeating a call with the same centre, zoom and time changes nothing more |
| `Refresh.RefreshKeepsCache` | gps-display.py:211-214 | a readable cached tile survives any call unchanged, and no cache file disappears |
| `Display.TruncToInt` | gps-display.py:261 | `int()` of a float truncates toward zero |
| `Display.ZoomStaysInRange` | gps-display.py:406-411 | no sequence of key presses takes a zoom in [2, 18] out of that range |
| `Display.ZoomFromStartInRange` | gps-display.py:33 | starting from zoom 16, the zoom stays in [2, 18] |
| `Display.RepeatedZoomIn` | gps-display.py:406-407 | pressing "+" n times gives min(zoom + n, 18) |
| `Display.GpsMapDisplay.constructor` | gps-display.py:30-66 | default centre (-0.787166, 51.617864), zoom 16, no location, running, and the state after one `load_map_tiles` from an empty dictionary, no centre key and time 0 |
| `Display.GpsMapDisplay.GetTilesToLoad` | gps-display.py:159-178 | the nested loops build exactly `TileWindow(cx, cy)`, whose shape `WindowShape` states |
| `Display.GpsMapDisplay.LoadCachedTile` | gps-display.py:94-102 | the decoded tile exactly when its file exists and decodes, else none |
| `Display.GpsMapDisplay.SaveTileToCache` | gps-display.py:104-110 | the file is written, or, when the save raises, the cache is unchanged |
| `Display.GpsMapDisplay.DownloadTile` | gps-display.py:129-157 | the method agrees with `Download`, including when an exception escapes it |
| `Display.GpsMapDisplay.LoadTileForKey` | gps-display.py:210-219 | one turn of the loop agrees with `LoadTile` |
| `Display.GpsMapDisplay.LoadKeysInto` | gps-display.py:209-219 | the loop's dictionary, cache and early exit agree with `LoadKeys` |
| `Display.GpsMapDisplay.LoadMapTiles` | gps-display.py:180-225 | the new state is `Refreshed` of the old one; the dictionary is always empty or one complete window, never part of one |
| `Display.GpsMapDisplay.OnGpsdFix` | gps-display.py:249-294 | an event whose arity is not 15 changes nothing; otherwise the location is recorded, the centre moves to (args[4], args[3]), and `load_map_tiles` runs exactly when the centre tile changed or no centre key is recorded |
| `Display.GpsMapDisplay.OnGpsdFixIntended` | gps-display.py:249-294 | the corrected trigger: like `OnGpsdFix` in every field, except that `load_map_tiles` runs exactly when the recorded centre key is not the current (centre tile, zoom); so after any 15-field fix past the cooldown the recorded key is the current one |
| `Display.GpsMapDisplay.HandleEvent` | gps-display.py:400-411 | quit and escape stop the loop and change nothing else; "+"/"=" and "-" clamp the zoom and then run `load_map_tiles`, leaving the centre, the location and `running` as they were; other keys change nothing |
| `Display.GpsMapDisplay.DrawMap` | gps-display.py:296-326 | nothing without tiles or a centre key; otherwise exactly one blit per on-screen tile, at its grid position, with no blit twice |
| `Display.LostZoomScenario` | gps-display.py:285-287 | as written: after "+" half a second into the cooldown and a fix at the same place an hour later, the recorded centre key is still zoom 16's while the zoom is 17; when no fallback raises, the dictionary holds exactly the zoom-16 window |
| `Display.LostZoomScenarioIntended` | gps-display.py:285-287 | with the corrected trigger, the same events end with zoom 17's centre key recorded; when no fallback raises, the dictionary holds exactly the zoom-17 window |

## Left out

- Rendering is not modelled: pygame, the fallback tile's drawing, the marker, the info panel, the status
  bar and the frame clock. A tile surface is a token (`Raster(pixels)` or `FallbackTile(x, y)`), and
  `draw_map` returns its list of blits instead of drawing them.
- The D-Bus listener and its thread are not modelled. `OnGpsdFix` and `HandleEvent` are atomic steps,
  so the race between the listener thread and the display loop is not represented.
- HTTP, PIL decoding and the file system are reduced to the outcome oracle `net` and the `Files` map.
  `os.makedirs` is left out: a missing cache directory is one more reason for `saveSucceeds` to be false.
- `lon2tile`, `lat2tile`, `tile2lon` and `tile2lat` use floating point. They appear as the constant
  function `project` and as the integer pixel offsets given to `DrawMap`. Domain errors of `math.log`
  near the poles, which the `try` of `on_gpsd_fix` would catch, are therefore not represented.
- Display.GpsMapDisplay.OnGpsdFix: the NaN filtering and the altitude, accuracy and speed fields are not kept.
  The arguments are modelled as reals, so a conversion by `float` or `int` cannot raise.
- The three reads of `time.time()` (the fix timestamp, `load_map_tiles`, the print throttle) are one
  `now` per step. `time.sleep(0.05)` and every `print` are left out.
- The only exception modelled inside `load_map_tiles` is one escaping `download_tile` while the fallback
  tile is being built. Request, decode and save errors are handled inside the helpers, as in the source.
- Display.GpsMapDisplay.DrawMap: Python's dictionary iteration order is not modelled. The blits are
  specified as a set with no repetition; `DistinctTilesDisjoint` shows the order cannot change the picture.
- Display.GpsMapDisplay.LoadKeysInto: the body of the loop of `load_map_tiles` is a method of its own,
  for proof size; it is called exactly where the loop stands in the source.

## Findings

| source | as written | input that shows it | evidently intended | confidence | as-written member | corrected member |
|---|---|---|---|---|---|---|
| gps-display.py:285-287 | `on_gpsd_fix` calls `load_map_tiles` only when the new fix's centre tile differs from the previous fix's, or no centre key is recorded. A reload suppressed by the one-second cooldown (a zoom key, gps-display.py:406-408 with 186-187) is never retried while the position stays in the same tile. | start at time t0 >= 1, press "+" at t0 + 0.5, then send a 15-field fix at the default centre at t0 + 3600: the zoom is 17 but the centre key (and, when no fallback raises, the tile window) is still that of zoom 16 | reload whenever the recorded centre key is not the current (centre tile, zoom), so the next fix past the cooldown catches up | not executed | `Display.LostZoomScenario` | `Display.GpsMapDisplay.OnGpsdFixIntended` |
