/**
 * The tile store of the display: the cache file name of a tile, what the
 * cache directory holds, one tile loaded cache first with fallback to the
 * network (`load_cached_tile`, `download_tile`, `save_tile_to_cache`), and the
 * loop of `load_map_tiles` that loads a whole list of tiles into a fresh
 * dictionary.
 */
module TileCache {
  import opened Wrappers
  import opened DecimalText
  import opened TileGrid

  /** A tile of the slippy-map pyramid, as the cache names it. */
  datatype TileKey = TileKey(zoom: int, x: int, y: int)

  /** A tile surface in memory: decoded pixels (an opaque token) or the synthetic placeholder. */
  datatype TileImage = Raster(pixels: nat) | FallbackTile(x: int, y: int)

  /** A file of the cache directory: a PNG that decodes to `pixels`, or one that does not decode. */
  datatype CacheFile = PngFile(pixels: nat) | Unreadable

  /**
   * The cache directory. The file of tile (zoom, x, y) is named
   * `TileFilename(x, y, zoom)` and sits under the key `TileKey(zoom, x, y)`:
   * file names are one to one and parse back (`FilenameRoundTrip`), so keying
   * the directory by tile loses nothing, and files of other names are never read.
   */
  type Files = map<TileKey, CacheFile>

  /** What `requests.get` gives: a reply (with the body decoded, or `None` when it is no image) or an exception. */
  datatype Response = HttpReply(status: int, body: Option<nat>) | RequestFailed

  /**
   * Everything outside the program that decides how loading one tile goes: the
   * network's answer, whether `pygame.image.save` succeeds, and whether building
   * the fallback tile raises (an exception that then escapes `download_tile`).
   */
  datatype Outcome = Outcome(response: Response, saveSucceeds: bool, fallbackRaises: bool)

  /** The reply `download_tile` accepts: HTTP 200 with a body that decodes as an image. */
  predicate ImageReply(r: Response) {
    r.HttpReply? && r.status == 200 && r.body.Some?
  }

  const CacheDir: string := "map_cache"
  const NamePrefix: string := "map_cache/tile_"
  const NameSuffix: string := ".png"

  /** `get_tile_filename(x, y, zoom)`: `os.path.join("map_cache", f"tile_{zoom}_{x}_{y}.png")`. */
  function TileFilename(x: int, y: int, zoom: int): string {
    CacheDir + "/" + "tile_" + IntToString(zoom) + "_" + IntToString(x) + "_" + IntToString(y) + ".png"
  }

  /** The directory entry of the cache file `TileFilename(c.0, c.1, zoom)` of tile `c` at `zoom`. */
  function FileOf(zoom: int, c: Coord): TileKey {
    TileKey(zoom, c.0, c.1)
  }

  // ---- the file name determines the tile ------------------------------------

  /** The `sep`-separated fields of `s`, like Python's `s.split(sep)`. */
  function Split(s: string, sep: char): (r: seq<string>)
    ensures |r| > 0
  {
    if s == [] then [[]]
    else
      var rest := Split(s[1..], sep);
      if s[0] == sep then [[]] + rest else [[s[0]] + rest[0]] + rest[1..]
  }

  lemma {:induction false} SplitNoSep(s: string, sep: char)
    requires sep !in s
    ensures Split(s, sep) == [s]
  {
    if s != [] {
      SplitNoSep(s[1..], sep);
      assert [s[0]] + s[1..] == s;
    }
  }

  lemma {:induction false} SplitAtSep(a: string, b: string, sep: char)
    requires sep !in a
    ensures Split(a + [sep] + b, sep) == [a] + Split(b, sep)
  {
    var s := a + [sep] + b;
    if a == [] {
      assert s[1..] == b;
    } else {
      assert s[1..] == a[1..] + [sep] + b;
      SplitAtSep(a[1..], b, sep);
      assert [a[0]] + a[1..] == a;
    }
  }

  /** Reads a tile back from its cache file name. */
  function ParseTileFilename(name: string): Option<TileKey> {
    if |name| < |NamePrefix| + |NameSuffix| then None
    else if name[..|NamePrefix|] != NamePrefix || name[|name| - |NameSuffix|..] != NameSuffix then None
    else ParseFields(Split(name[|NamePrefix|..|name| - |NameSuffix|], '_'))
  }

  /** `zoom`, `x` and `y` from the three `_`-separated fields of a file name. */
  function ParseFields(fields: seq<string>): Option<TileKey> {
    if |fields| != 3 then None
    else match (ParseInt(fields[0]), ParseInt(fields[1]), ParseInt(fields[2]))
      case (Some(zoom), Some(x), Some(y)) => Some(TileKey(zoom, x, y))
      case _ => None
  }

  lemma NoSeparator(i: int)
    ensures '_' !in IntToString(i)
  {
    IntToStringAlphabet(i);
  }

  lemma Affixes(pre: string, mid: string, suf: string)
    ensures var s := pre + mid + suf;
      |s| >= |pre| + |suf| && s[..|pre|] == pre && s[|s| - |suf|..] == suf && s[|pre|..|s| - |suf|] == mid
  {
    var s := pre + mid + suf;
    assert s[..|pre|] == pre;
    assert s[|s| - |suf|..] == suf;
    assert s[|pre|..|s| - |suf|] == mid;
  }

  /** The three fields between the separators split apart again. */
  lemma SplitFields(zoom: int, x: int, y: int)
    ensures Split(IntToString(zoom) + "_" + IntToString(x) + "_" + IntToString(y), '_')
         == [IntToString(zoom), IntToString(x), IntToString(y)]
  {
    var z, xs, ys := IntToString(zoom), IntToString(x), IntToString(y);
    NoSeparator(zoom);
    NoSeparator(x);
    NoSeparator(y);
    SplitNoSep(ys, '_');
    SplitAtSep(xs, ys, '_');
    assert z + "_" + xs + "_" + ys == z + "_" + (xs + "_" + ys);
    SplitAtSep(z, xs + "_" + ys, '_');
  }

  /** The parser strips the fixed prefix and suffix and reads the fields in between. */
  lemma ParseFramed(middle: string)
    ensures ParseTileFilename(NamePrefix + middle + NameSuffix) == ParseFields(Split(middle, '_'))
  {
    Affixes(NamePrefix, middle, NameSuffix);
  }

  lemma ConcatAssoc(a: string, b: string, c: string)
    ensures a + b + c == a + (b + c)
  {
  }

  /** The cache file name of a tile reads back as that tile. */
  lemma FilenameRoundTrip(x: int, y: int, zoom: int)
    ensures ParseTileFilename(TileFilename(x, y, zoom)) == Some(TileKey(zoom, x, y))
  {
    var z, xs, ys := IntToString(zoom), IntToString(x), IntToString(y);
    var middle := z + "_" + xs + "_" + ys;
    assert CacheDir + "/" + "tile_" == NamePrefix;
    ConcatAssoc(NamePrefix, z, "_");
    ConcatAssoc(NamePrefix, z + "_", xs);
    ConcatAssoc(NamePrefix, z + "_" + xs, "_");
    ConcatAssoc(NamePrefix, z + "_" + xs + "_", ys);
    assert TileFilename(x, y, zoom) == NamePrefix + middle + NameSuffix;
    ParseFramed(middle);
    SplitFields(zoom, x, y);
    ParseIntRoundTrip(zoom);
    ParseIntRoundTrip(x);
    ParseIntRoundTrip(y);
  }

  /** Different tiles have different cache files, so the cache is in effect keyed by (zoom, x, y). */
  lemma FilenameInjective(x1: int, y1: int, zoom1: int, x2: int, y2: int, zoom2: int)
    requires TileFilename(x1, y1, zoom1) == TileFilename(x2, y2, zoom2)
    ensures zoom1 == zoom2 && x1 == x2 && y1 == y2
  {
    FilenameRoundTrip(x1, y1, zoom1);
    FilenameRoundTrip(x2, y2, zoom2);
  }

  // ---- one tile -------------------------------------------------------------

  /** `load_cached_tile`: the image if the file exists and decodes, else `None`. */
  function CachedTile(files: Files, name: TileKey): Option<TileImage> {
    if name in files && files[name].PngFile? then Some(Raster(files[name].pixels)) else None
  }

  /** A tile obtained, with the cache directory as it is afterwards. */
  datatype Loaded = Loaded(image: TileImage, files: Files)

  /** The two maps hold the same thing (or nothing) under `name`. */
  predicate AgreeAt(f1: Files, f2: Files, name: TileKey) {
    (name in f1 <==> name in f2) && (name in f1 ==> f1[name] == f2[name])
  }

  /**
   * `download_tile(x, y, zoom)`: on HTTP 200 with a decodable body the tile is
   * saved (if the save succeeds) and returned; on any other reply or a request
   * exception the fallback tile is returned and nothing is saved. `None` when
   * building the fallback raises.
   */
  function Download(files: Files, zoom: int, c: Coord, o: Outcome): (r: Option<Loaded>)
    ensures ImageReply(o.response) ==> r.Some? && r.value.image == Raster(o.response.body.value)
    ensures !ImageReply(o.response) ==> r.None? || r.value == Loaded(FallbackTile(c.0, c.1), files)
    ensures r.None? <==> !ImageReply(o.response) && o.fallbackRaises
    ensures r.Some? && r.value.image.Raster? ==>
      r.value.files == (if o.saveSucceeds then files[FileOf(zoom, c) := PngFile(r.value.image.pixels)] else files)
  {
    match o.response
    case HttpReply(200, Some(pixels)) =>
      Some(Loaded(Raster(pixels), if o.saveSucceeds then files[FileOf(zoom, c) := PngFile(pixels)] else files))
    case _ =>
      if o.fallbackRaises then None else Some(Loaded(FallbackTile(c.0, c.1), files))
  }

  /**
   * One iteration of the loop of `load_map_tiles`: the cached tile when there is
   * one, else a download. A hit is used as is and touches neither the network
   * nor the cache; only a miss followed by a good download and save writes, and
   * only the tile's own file.
   */
  function LoadTile(files: Files, zoom: int, c: Coord, o: Outcome): (r: Option<Loaded>)
    ensures CachedTile(files, FileOf(zoom, c)).Some? ==>
      r == Some(Loaded(CachedTile(files, FileOf(zoom, c)).value, files))
    ensures CachedTile(files, FileOf(zoom, c)).None? ==> r == Download(files, zoom, c, o)
    ensures r.Some? ==> forall name :: name != FileOf(zoom, c) ==> AgreeAt(r.value.files, files, name)
    ensures r.Some? ==> files.Keys <= r.value.files.Keys
  {
    var cached := CachedTile(files, FileOf(zoom, c));
    if cached.Some? then Some(Loaded(cached.value, files)) else Download(files, zoom, c, o)
  }

  /** The load of one tile looks at nothing in the cache but the tile's own file. */
  lemma LoadTileLocal(f1: Files, f2: Files, zoom: int, c: Coord, o: Outcome)
    requires AgreeAt(f1, f2, FileOf(zoom, c))
    ensures LoadTile(f1, zoom, c, o).Some? <==> LoadTile(f2, zoom, c, o).Some?
    ensures LoadTile(f1, zoom, c, o).Some? ==>
      LoadTile(f1, zoom, c, o).value.image == LoadTile(f2, zoom, c, o).value.image &&
      AgreeAt(LoadTile(f1, zoom, c, o).value.files, LoadTile(f2, zoom, c, o).value.files, FileOf(zoom, c))
  {
  }

  /** Once a tile has been downloaded and saved, the next load of it is a hit, whatever the network does then. */
  lemma SavedTileIsHit(files: Files, zoom: int, c: Coord, o: Outcome, later: Outcome)
    requires CachedTile(files, FileOf(zoom, c)).None?
    requires ImageReply(o.response) && o.saveSucceeds
    ensures LoadTile(files, zoom, c, o).Some?
    ensures var next := LoadTile(files, zoom, c, o).value;
      LoadTile(next.files, zoom, c, later) == Some(Loaded(Raster(o.response.body.value), next.files))
  {
  }

  // ---- the loop over the window ----------------------------------------------

  /** The new dictionary, the cache directory after the loop, and whether an exception cut the loop short. */
  datatype Batch = Batch(tiles: map<Coord, TileImage>, files: Files, faulted: bool)

  /**
   * The loop of `load_map_tiles` over `keys`, in order, starting from an empty
   * dictionary: every key is loaded against the cache as the earlier keys left it;
   * the first exception stops the loop.
   */
  function LoadKeys(files: Files, zoom: int, keys: seq<Coord>, net: Coord -> Outcome): Batch
    decreases |keys|
  {
    if keys == [] then Batch(map[], files, false)
    else
      var prev := LoadKeys(files, zoom, keys[..|keys| - 1], net);
      var c := keys[|keys| - 1];
      if prev.faulted then prev
      else match LoadTile(prev.files, zoom, c, net(c))
        case None => Batch(prev.tiles, prev.files, true)
        case Some(step) => Batch(prev.tiles[c := step.image], step.files, false)
  }

  /** One more turn of the loop: the prefix of length `i + 1` is the prefix of length `i` and key `i`. */
  lemma LoadKeysStep(files: Files, zoom: int, keys: seq<Coord>, net: Coord -> Outcome, i: nat)
    requires i < |keys|
    ensures var prev, c := LoadKeys(files, zoom, keys[..i], net), keys[i];
      LoadKeys(files, zoom, keys[..i + 1], net)
        == if prev.faulted then prev
           else match LoadTile(prev.files, zoom, c, net(c))
             case None => Batch(prev.tiles, prev.files, true)
             case Some(step) => Batch(prev.tiles[c := step.image], step.files, false)
  {
    assert keys[..i + 1][..i] == keys[..i];
  }

  /** The tile `c` gets when loaded against the cache `files`. */
  function TileFor(files: Files, zoom: int, c: Coord, o: Outcome): Option<TileImage> {
    match LoadTile(files, zoom, c, o)
    case Some(l) => Some(l.image)
    case None => None
  }

  /** The cache file of `c` after loading it against `files`. */
  predicate FileAfter(files: Files, zoom: int, c: Coord, o: Outcome, result: Files) {
    LoadTile(files, zoom, c, o).Some? && AgreeAt(result, LoadTile(files, zoom, c, o).value.files, FileOf(zoom, c))
  }

  /** Once the loop has faulted, the remaining keys change nothing. */
  lemma {:induction false} FaultIsFinal(files: Files, zoom: int, keys: seq<Coord>, net: Coord -> Outcome, i: nat)
    requires i <= |keys|
    requires LoadKeys(files, zoom, keys[..i], net).faulted
    ensures LoadKeys(files, zoom, keys, net) == LoadKeys(files, zoom, keys[..i], net)
  {
    if i < |keys| {
      assert keys[..|keys| - 1][..i] == keys[..i];
      FaultIsFinal(files, zoom, keys[..|keys| - 1], net, i);
    } else {
      assert keys[..i] == keys;
    }
  }

  /** The loop writes no cache file but those of its keys, removes none, and keeps every readable one. */
  lemma {:induction false} LoadKeysFrame(files: Files, zoom: int, keys: seq<Coord>, net: Coord -> Outcome, name: TileKey)
    ensures files.Keys <= LoadKeys(files, zoom, keys, net).files.Keys
    ensures (forall c :: c in keys ==> FileOf(zoom, c) != name) ==> AgreeAt(LoadKeys(files, zoom, keys, net).files, files, name)
    ensures name in files && files[name].PngFile? ==> AgreeAt(LoadKeys(files, zoom, keys, net).files, files, name)
  {
    if keys != [] {
      var prefix := keys[..|keys| - 1];
      var c := keys[|keys| - 1];
      LoadKeysFrame(files, zoom, prefix, net, name);
      var prev := LoadKeys(files, zoom, prefix, net);
      if !prev.faulted && name == FileOf(zoom, c) && name in files && files[name].PngFile? {
        assert CachedTile(prev.files, FileOf(zoom, c)).Some?;
      }
    }
  }

  /** Without a fault the new dictionary has exactly the loop's keys. */
  lemma {:induction false} LoadKeysDomain(files: Files, zoom: int, keys: seq<Coord>, net: Coord -> Outcome)
    ensures !LoadKeys(files, zoom, keys, net).faulted ==> LoadKeys(files, zoom, keys, net).tiles.Keys == set c | c in keys
  {
    if keys != [] {
      var prefix := keys[..|keys| - 1];
      LoadKeysDomain(files, zoom, prefix, net);
      assert keys == prefix + [keys[|keys| - 1]];
    }
  }

  /** No earlier key of a list of distinct keys shares the last key's cache file. */
  lemma EarlierFilesDiffer(zoom: int, keys: seq<Coord>, c: Coord)
    requires Distinct(keys) && keys != []
    requires c in keys[..|keys| - 1]
    ensures FileOf(zoom, c) != FileOf(zoom, keys[|keys| - 1])
  {
    var k :| 0 <= k < |keys| - 1 && keys[..|keys| - 1][k] == c;
    assert keys[k] == c;
  }

  /** Before a distinct key is reached, the loop has left its cache file as it found it. */
  lemma UntouchedBeforeLast(files: Files, zoom: int, keys: seq<Coord>, net: Coord -> Outcome)
    requires Distinct(keys) && keys != []
    ensures AgreeAt(LoadKeys(files, zoom, keys[..|keys| - 1], net).files, files, FileOf(zoom, keys[|keys| - 1]))
  {
    forall c | c in keys[..|keys| - 1]
      ensures FileOf(zoom, c) != FileOf(zoom, keys[|keys| - 1])
    {
      EarlierFilesDiffer(zoom, keys, c);
    }
    LoadKeysFrame(files, zoom, keys[..|keys| - 1], net, FileOf(zoom, keys[|keys| - 1]));
  }

  /** The last key of the loop gets the tile it gets from the cache as it was before the loop. */
  lemma LoadKeysAtLast(files: Files, zoom: int, keys: seq<Coord>, net: Coord -> Outcome)
    requires Distinct(keys) && keys != []
    requires !LoadKeys(files, zoom, keys, net).faulted
    ensures var b, c := LoadKeys(files, zoom, keys, net), keys[|keys| - 1];
      c in b.tiles && TileFor(files, zoom, c, net(c)) == Some(b.tiles[c]) && FileAfter(files, zoom, c, net(c), b.files)
  {
    var prev := LoadKeys(files, zoom, keys[..|keys| - 1], net);
    UntouchedBeforeLast(files, zoom, keys, net);
    LoadTileLocal(prev.files, files, zoom, keys[|keys| - 1], net(keys[|keys| - 1]));
  }

  /** Loading the last key leaves the tile and the cache file of every earlier key as they were. */
  lemma LoadKeysKeepsEarlier(files: Files, zoom: int, keys: seq<Coord>, net: Coord -> Outcome, c: Coord)
    requires Distinct(keys) && keys != [] && c in keys[..|keys| - 1]
    requires !LoadKeys(files, zoom, keys, net).faulted
    ensures var b, prev := LoadKeys(files, zoom, keys, net), LoadKeys(files, zoom, keys[..|keys| - 1], net);
      c in prev.tiles ==> c in b.tiles && b.tiles[c] == prev.tiles[c] && AgreeAt(b.files, prev.files, FileOf(zoom, c))
  {
    EarlierFilesDiffer(zoom, keys, c);
  }

  lemma AgreeAtTrans(f1: Files, f2: Files, f3: Files, name: TileKey)
    requires AgreeAt(f1, f2, name) && AgreeAt(f2, f3, name)
    ensures AgreeAt(f1, f3, name)
  {
  }

  /**
   * The loop's result per key does not depend on the order of the keys: each
   * distinct key gets exactly the tile (and writes exactly the file) it would get
   * from the cache as it was before the loop. That rests on the file names being
   * one to one.
   */
  lemma {:induction false} LoadKeysAt(files: Files, zoom: int, keys: seq<Coord>, net: Coord -> Outcome, c: Coord)
    requires Distinct(keys) && c in keys
    requires !LoadKeys(files, zoom, keys, net).faulted
    ensures c in LoadKeys(files, zoom, keys, net).tiles
    ensures TileFor(files, zoom, c, net(c)) == Some(LoadKeys(files, zoom, keys, net).tiles[c])
    ensures FileAfter(files, zoom, c, net(c), LoadKeys(files, zoom, keys, net).files)
  {
    var prefix := keys[..|keys| - 1];
    var last := keys[|keys| - 1];
    assert keys == prefix + [last];
    if c == last {
      LoadKeysAtLast(files, zoom, keys, net);
    } else {
      assert c in prefix;
      assert Distinct(prefix);
      assert !LoadKeys(files, zoom, prefix, net).faulted;
      LoadKeysAt(files, zoom, prefix, net, c);
      LoadKeysAtEarlier(files, zoom, keys, net, c);
    }
  }

  /** What an earlier key got before the last key was loaded, it still has afterwards. */
  lemma LoadKeysAtEarlier(files: Files, zoom: int, keys: seq<Coord>, net: Coord -> Outcome, c: Coord)
    requires Distinct(keys) && keys != [] && c in keys[..|keys| - 1]
    requires !LoadKeys(files, zoom, keys, net).faulted
    requires var prev := LoadKeys(files, zoom, keys[..|keys| - 1], net);
      c in prev.tiles && TileFor(files, zoom, c, net(c)) == Some(prev.tiles[c]) && FileAfter(files, zoom, c, net(c), prev.files)
    ensures var b := LoadKeys(files, zoom, keys, net);
      c in b.tiles && TileFor(files, zoom, c, net(c)) == Some(b.tiles[c]) && FileAfter(files, zoom, c, net(c), b.files)
  {
    var prev := LoadKeys(files, zoom, keys[..|keys| - 1], net);
    var b := LoadKeys(files, zoom, keys, net);
    LoadKeysKeepsEarlier(files, zoom, keys, net, c);
    AgreeAtTrans(b.files, prev.files, LoadTile(files, zoom, c, net(c)).value.files, FileOf(zoom, c));
  }

  /** The loop is cut short exactly when some key misses the cache and its fallback tile raises. */
  lemma {:induction false} LoadKeysFaults(files: Files, zoom: int, keys: seq<Coord>, net: Coord -> Outcome)
    requires Distinct(keys)
    ensures LoadKeys(files, zoom, keys, net).faulted <==> exists c :: c in keys && TileFor(files, zoom, c, net(c)).None?
  {
    if keys != [] {
      var prefix := keys[..|keys| - 1];
      var last := keys[|keys| - 1];
      var prev := LoadKeys(files, zoom, prefix, net);
      assert keys == prefix + [last];
      assert Distinct(prefix);
      LoadKeysFaults(files, zoom, prefix, net);
      if !prev.faulted {
        UntouchedBeforeLast(files, zoom, keys, net);
        LoadTileLocal(prev.files, files, zoom, last, net(last));
      }
    }
  }
}
